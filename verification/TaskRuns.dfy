/** What holds over whole runs of the task protocol: ownership, the double buffer, clearing, and progress. */
module TaskRuns {
  import opened Wrappers
  import opened Sequences
  import opened TaskProtocol

  // ---------- Runs ----------

  function Step(c: Config, s: State, m: Move): (s': State)
    requires c.Valid() && Inv(c, s) && Enabled(c, s, m)
    ensures Inv(c, s')
  {
    NextKeeps(c, s, m);
    Next(c, s, m)
  }

  /** The moves can be made one after the other, by any threads in any order. */
  predicate Possible(c: Config, s: State, ms: seq<Move>)
    requires c.Valid() && Inv(c, s)
    decreases |ms|, 0
  {
    ms == [] || (Possible(c, s, ms[..|ms| - 1]) && Enabled(c, After(c, s, ms[..|ms| - 1]), ms[|ms| - 1]))
  }

  function After(c: Config, s: State, ms: seq<Move>): (s': State)
    requires c.Valid() && Inv(c, s) && Possible(c, s, ms)
    ensures Inv(c, s')
    decreases |ms|, 1
  {
    if ms == [] then s else Step(c, After(c, s, ms[..|ms| - 1]), ms[|ms| - 1])
  }

  // ---------- Ownership ----------

  /** A task that is not released is in exactly one place, once; a released one is nowhere. */
  ghost predicate OwnedOnce(s: State, id: TaskId)
    requires id in s.tasks
  {
    if s.tasks[id].releases == 0 then
      exists at :: At(s, at)[id] == 1 && forall other | other != at :: At(s, other)[id] == 0
    else
      forall at :: At(s, at)[id] == 0
  }

  /** It was dealt with and released at most once and dequeued at most twice; released by its creator if it had been
      dealt with away from it, and else where it was posted to. Before it is dealt with it is where it was
      posted to, and only a runner of that queue deals with it. `OnFinish` was called at most once, on the processor
      that created it, when its function had run or its handler been called; the handler, exactly if there is no
      function or the task was posted to a frame runner. */
  ghost predicate TreatedOnce(c: Config, i: Info) {
    && i.ran + i.handles <= 1 && i.releases <= 1 && i.taken <= 2 && |i.finishes| <= 1
    && (i.runner.None? ==> AtTarget(c, i) && i.ran + i.handles == 0)
    && (i.runner.Some? ==> i.runner.value in c.serves && c.serves[i.runner.value] == i.target)
    && ReleasedAtHome(c, i)
    && (i.ran == 1 ==> i.posted.func) && (i.handles == 1 ==> i.posted.whom)
    && (i.finishes != [] ==>
          && i.finishes == [i.posted.creator] && i.posted.whom && i.task.state == Handled && i.ran + i.handles == 1
          && (i.handles == 1 <==> !i.posted.func || ToFrame(c, i)))
  }

  /** The task was posted to a frame runner. */
  ghost predicate ToFrame(c: Config, i: Info) {
    i.target in c.kind && c.kind[i.target].Frame?
  }

  lemma InvOwned(c: Config, s: State, id: TaskId)
    requires c.Valid() && Inv(c, s) && id in s.tasks
    ensures OwnedOnce(s, id) && TreatedOnce(c, s.tasks[id])
  {
    hide Buffers, Batches, Shaped, Config.Valid;
    var i := s.tasks[id];
    assert Life(c, i);
    forall at
      ensures At(s, at)[id] == if at != Gone && i.at == at then 1 else 0
    {
      assert at != Gone ==> At(s, at)[id] == if Is(s, id, at) then 1 else 0;
    }
    hide At;
    if i.releases == 0 {
      assert At(s, i.at)[id] == 1;
    }
  }

  /** In every interleaving of all processors and posters. */
  lemma Ownership(c: Config, s0: State, ms: seq<Move>)
    requires c.Valid() && Initial(c, s0) && (InitialInv(c, s0); Possible(c, s0, ms))
    ensures (InitialInv(c, s0);
             var s := After(c, s0, ms);
             forall id | id in s.tasks :: OwnedOnce(s, id) && TreatedOnce(c, s.tasks[id]))
  {
    InitialInv(c, s0);
    var s := After(c, s0, ms);
    forall id | id in s.tasks
      ensures OwnedOnce(s, id) && TreatedOnce(c, s.tasks[id])
    {
      InvOwned(c, s, id);
    }
  }

  // ---------- The double buffer ----------

  /** A consumer that is not told of new tasks has none incoming. When it exchanges its buffers the working one is
      empty and it has no task in hands, so the exchange loses none and the whole incoming batch, no more, is what it
      works on next. */
  lemma NoPostIsLost(c: Config, s: State, r: Runner)
    requires c.Valid() && Inv(c, s) && r in c.serves && c.kind[c.serves[r]] == Consumer
    ensures var q := s.queues[c.serves[r]]; q.Buffered? && (!q.ready ==> q.incoming == multiset{})
    ensures var m, q := Run(r, Reload), s.queues[c.serves[r]];
            Enabled(c, s, m) ==>
              && q.working == multiset{} && At(s, Hands(r)) == multiset{}
              && var q' := Step(c, s, m).queues[c.serves[r]];
              q'.working == q.incoming && q'.incoming == multiset{} && !q'.ready
  {
    hide Placed, Lives, Batches;
    KnownBuffers(c, s, r);
  }

  /** While a task of one batch is in the working queue or in hands, no task of an earlier batch is queued. */
  lemma BatchAfterBatch(c: Config, s: State, r: Runner, a: TaskId, b: TaskId)
    requires c.Valid() && Inv(c, s) && r in c.serves && c.kind[c.serves[r]] == Consumer && a in s.tasks && b in s.tasks
    requires s.tasks[a].at in {Working(c.serves[r]), Hands(r)}
    requires s.tasks[b].at in {Incoming(c.serves[r]), Working(c.serves[r])}
    ensures s.tasks[a].batch <= s.tasks[b].batch
    ensures s.tasks[b].at.Incoming? ==> s.tasks[a].batch < s.tasks[b].batch
  {
    hide Placed, Lives, Buffers;
    assert InBatch(c, s.queues, s.tasks[a]) && InBatch(c, s.queues, s.tasks[b]);
  }

  // ---------- Clearing ----------

  ghost predicate ClearsAt(c: Config, s: State, r: Runner, id: TaskId) {
    && r in c.serves && r in s.runners && s.runners[r].Clearing? && c.serves[r] in c.kind
    && c.kind[c.serves[r]].Consumer?
    && id in s.tasks && s.tasks[id].at in {Incoming(c.serves[r]), Working(c.serves[r]), Gone}
  }

  ghost predicate StoppedWithout(s: State, r: Runner, id: TaskId) {
    r in s.runners && s.runners[r].Exited? && id in s.tasks && s.tasks[id].at == Gone
  }

  /** A task that a step moves was where the step takes it from. */
  lemma StepSource(c: Config, s: State, r: Runner, act: Act)
    requires c.Valid() && Inv(c, s) && Enabled(c, s, Run(r, act))
    ensures act.Take? ==> Is(s, act.id, Source(c, s, r))
    ensures act.Process? ==> Is(s, s.runners[r].id, Hands(r))
    ensures act.ClearOne? ==> Is(s, act.id, Incoming(c.serves[r])) || Is(s, act.id, Working(c.serves[r]))
    ensures act == Turn(Exited) ==> forall id :: !Is(s, id, Incoming(c.serves[r])) && !Is(s, id, Working(c.serves[r]))
  {
    hide Lives, Batches, Buffers;
    var p := c.serves[r];
    match act
    case Take(id) => assert At(s, Source(c, s, r))[id] > 0;
    case Process => assert At(s, Hands(r))[s.runners[r].id] > 0;
    case ClearOne(id) => assert At(s, Incoming(p))[id] > 0 || At(s, Working(p))[id] > 0;
    case Turn(pc) =>
      if pc == Exited {
        forall id
          ensures !Is(s, id, Incoming(p)) && !Is(s, id, Working(p))
        {
          assert At(s, Incoming(p))[id] == 0 && At(s, Working(p))[id] == 0;
        }
      }
    case Reload =>
  }

  lemma OnlyRunner(c: Config, r: Runner, x: Runner)
    requires c.Valid() && r in c.serves && x in c.serves && c.serves[x] == c.serves[r] && c.kind[c.serves[r]].Consumer?
    ensures x == r
  {
  }

  /** No step takes a task from a consumer that clears its queues, but one of the consumer itself that releases it. */
  lemma ClearingStep(c: Config, s: State, m: Move, r: Runner, id: TaskId)
    requires c.Valid() && Inv(c, s) && Enabled(c, s, m) && ClearsAt(c, s, r, id)
    ensures var s' := Step(c, s, m); ClearsAt(c, s', r, id) || StoppedWithout(s', r, id)
  {
    hide Placed, Lives, Batches, Buffers, Config.Valid, Posted, Reloaded, Processed, Dequeued, Cleared, Greatest;
    if m.Run? {
      StepSource(c, s, m.r, m.act);
      if c.serves[m.r] == c.serves[r] {
        OnlyRunner(c, r, m.r);
        assert m.act == Turn(Exited) ==> !Is(s, id, Incoming(c.serves[r])) && !Is(s, id, Working(c.serves[r]));
      }
    }
  }

  /** Once a consumer has left its loops, what is then in its queues is released exactly once by the time it stops. */
  lemma {:induction false} ClearReleasesAll(c: Config, s: State, ms: seq<Move>, r: Runner, id: TaskId)
    requires c.Valid() && Inv(c, s) && Possible(c, s, ms) && ClearsAt(c, s, r, id)
    ensures var s' := After(c, s, ms); r in s'.runners && id in s'.tasks
    ensures After(c, s, ms).runners[r].Exited? ==> After(c, s, ms).tasks[id].releases == 1
  {
    ClearingRun(c, s, ms, r, id);
    var s' := After(c, s, ms);
    assert Life(c, s'.tasks[id]);
  }

  lemma {:induction false} ClearingRun(c: Config, s: State, ms: seq<Move>, r: Runner, id: TaskId)
    requires c.Valid() && Inv(c, s) && Possible(c, s, ms) && ClearsAt(c, s, r, id)
    ensures var s' := After(c, s, ms); ClearsAt(c, s', r, id) || StoppedWithout(s', r, id)
  {
    hide Inv, Config.Valid, Next;
    if ms != [] {
      var past := ms[..|ms| - 1];
      ClearingRun(c, s, past, r, id);
      var s1, m := After(c, s, past), ms[|ms| - 1];
      if ClearsAt(c, s1, r, id) {
        ClearingStep(c, s1, m, r, id);
      } else {
        StoppedStep(c, s1, m, r, id);
      }
    }
  }

  lemma StoppedStep(c: Config, s: State, m: Move, r: Runner, id: TaskId)
    requires c.Valid() && Inv(c, s) && Enabled(c, s, m) && StoppedWithout(s, r, id)
    ensures StoppedWithout(Step(c, s, m), r, id)
  {
    hide Placed, Lives, Batches, Buffers, Config.Valid, Posted, Reloaded, Processed, Dequeued, Cleared, Greatest;
    if m.Run? {
      StepSource(c, s, m.r, m.act);
    }
  }

  // ---------- Progress ----------

  /** A step of a runner, none of a poster. */
  ghost predicate Advances(c: Config, s: State, m: Move)
    requires c.Valid() && Inv(c, s)
  {
    Enabled(c, s, m) && m.Run?
  }

  /** How many steps a task is still to be moved in: taken, processed, and, where it goes back, taken and processed
      again. */
  function Remaining(i: Info): nat {
    match i.at
    case Gone => 0
    case Hands(_) => if i.task.action == ReleaseTask then 1 else 3
    case _ => if i.task.action == ReleaseTask then 2 else 4
  }

  ghost function Left(s: State, k: nat): set<TaskId> {
    set id | id in s.tasks && Remaining(s.tasks[id]) >= k
  }

  ghost function Ready(s: State): set<Proc> {
    set p | p in s.queues && s.queues[p].Buffered? && s.queues[p].ready
  }

  /** The runners in their loops and not waiting, those working on a batch or a task, those that have not left their
      loops, and those that have not stopped. */
  ghost function Awake(s: State): set<Runner> {
    set r | r in s.runners && (s.runners[r].Top? || s.runners[r].Draining? || s.runners[r].Holding?)
  }

  ghost function Busy(s: State): set<Runner> {
    set r | r in s.runners && (s.runners[r].Draining? || s.runners[r].Holding?)
  }

  ghost function Looping(s: State): set<Runner> {
    set r | r in s.runners && !s.runners[r].Clearing? && !s.runners[r].Exited?
  }

  ghost function Running(s: State): set<Runner> {
    set r | r in s.runners && !s.runners[r].Exited?
  }

  ghost function RunnerSteps(s: State): nat {
    |Awake(s)| + |Busy(s)| + |Looping(s)| + |Running(s)|
  }

  ghost function TaskSteps(s: State): nat {
    |Left(s, 1)| + |Left(s, 2)| + |Left(s, 3)| + |Left(s, 4)|
  }

  ghost function Measure(s: State): nat {
    4 * TaskSteps(s) + 3 * |Ready(s)| + RunnerSteps(s)
  }

  function Level(pc: Pc): nat {
    match pc
    case Exited => 0
    case Clearing => 1
    case Waiting => 2
    case Top => 3
    case Draining => 4
    case Holding(_) => 4
  }

  /** Every task has as many moves left as before, or task `id` fewer. */
  ghost predicate Fewer(s: State, s': State, id: TaskId) {
    && s'.tasks.Keys == s.tasks.Keys && id in s.tasks && Remaining(s'.tasks[id]) < Remaining(s.tasks[id]) <= 4
    && forall x | x in s.tasks && x != id :: Remaining(s'.tasks[x]) == Remaining(s.tasks[x])
  }

  lemma FewerLeft(s: State, s': State, id: TaskId)
    requires Fewer(s, s', id)
    ensures TaskSteps(s') < TaskSteps(s)
  {
    hide Remaining;
    forall k
      ensures Left(s', k) <= Left(s, k)
      ensures Remaining(s.tasks[id]) == k ==> id in Left(s, k) - Left(s', k)
    {
    }
    Smaller(Left(s', 1), Left(s, 1));
    Smaller(Left(s', 2), Left(s, 2));
    Smaller(Left(s', 3), Left(s, 3));
    Smaller(Left(s', 4), Left(s, 4));
    assert Remaining(s.tasks[id]) in {1, 2, 3, 4};
  }

  ghost predicate SameLeft(s: State, s': State) {
    s'.tasks.Keys == s.tasks.Keys && forall x | x in s.tasks :: Remaining(s'.tasks[x]) == Remaining(s.tasks[x])
  }

  lemma SameLeftSets(s: State, s': State)
    requires SameLeft(s, s')
    ensures TaskSteps(s') == TaskSteps(s)
  {
    assert forall k :: Left(s', k) == Left(s, k);
  }

  /** Runner `r` goes on to another point of its loops. */
  lemma RunnerGoes(s: State, s': State, r: Runner, pc: Pc)
    requires r in s.runners && s'.runners == s.runners[r := pc]
    ensures RunnerSteps(s') == RunnerSteps(s) - Level(s.runners[r]) + Level(pc)
  {
    Resized(Awake(s), Awake(s'), r);
    Resized(Busy(s), Busy(s'), r);
    Resized(Looping(s), Looping(s'), r);
    Resized(Running(s), Running(s'), r);
  }

  /** The flag of one consumer at most is raised, and lowered if it was the one of a consumer that wakes. */
  lemma ReadyGoes(s: State, s': State, p: Proc, q: Queue)
    requires p in s.queues && s'.queues == s.queues[p := q] && q.Buffered? == s.queues[p].Buffered?
    ensures |Ready(s')| <= |Ready(s)| + 1
    ensures q.Buffered? && q.ready == s.queues[p].ready ==> |Ready(s')| == |Ready(s)|
    ensures q.Fifo? ==> |Ready(s')| == |Ready(s)|
    ensures q.Buffered? && !q.ready && s.queues[p].ready ==> |Ready(s')| == |Ready(s)| - 1
  {
    Resized(Ready(s), Ready(s'), p);
  }

  lemma TurnMeasure(c: Config, s: State, r: Runner, pc: Pc)
    requires c.Valid() && Inv(c, s) && Advances(c, s, Run(r, Turn(pc)))
    ensures Measure(Step(c, s, Run(r, Turn(pc)))) < Measure(s)
  {
    hide Inv, Config.Valid, TaskSteps, RunnerSteps;
    var s' := Step(c, s, Run(r, Turn(pc)));
    SameLeftSets(s, s');
    assert Ready(s') == Ready(s);
    RunnerGoes(s, s', r, pc);
  }

  lemma ReloadMeasure(c: Config, s: State, r: Runner)
    requires c.Valid() && Inv(c, s) && Advances(c, s, Run(r, Reload))
    ensures Measure(Step(c, s, Run(r, Reload))) < Measure(s)
  {
    hide Inv, Config.Valid, TaskSteps, RunnerSteps, Ready;
    KnownBuffers(c, s, r);
    var s', p := Step(c, s, Run(r, Reload)), c.serves[r];
    SameLeftSets(s, s');
    ReadyGoes(s, s', p, Reloaded(s.queues[p]));
    RunnerGoes(s, s', r, Draining);
  }

  lemma TakeMeasure(c: Config, s: State, r: Runner, id: TaskId)
    requires c.Valid() && Inv(c, s) && Advances(c, s, Run(r, Take(id)))
    ensures Measure(Step(c, s, Run(r, Take(id)))) < Measure(s)
  {
    hide Inv, Config.Valid, TaskSteps, RunnerSteps, Ready, Greatest;
    KnownBuffers(c, s, r);
    StepSource(c, s, r, Take(id));
    var s', p := Step(c, s, Run(r, Take(id))), c.serves[r];
    FewerLeft(s, s', id);
    ReadyGoes(s, s', p, Dequeued(s.queues[p], id));
    RunnerGoes(s, s', r, Holding(id));
  }

  lemma ClearMeasure(c: Config, s: State, r: Runner, id: TaskId)
    requires c.Valid() && Inv(c, s) && Advances(c, s, Run(r, ClearOne(id)))
    ensures Measure(Step(c, s, Run(r, ClearOne(id)))) < Measure(s)
  {
    hide Inv, Config.Valid, TaskSteps, Ready, Greatest;
    KnownBuffers(c, s, r);
    StepSource(c, s, r, ClearOne(id));
    var s', p := Step(c, s, Run(r, ClearOne(id))), c.serves[r];
    FewerLeft(s, s', id);
    ReadyGoes(s, s', p, Cleared(s.queues[p], id));
  }

  /** What is left of a task when it has been dealt with: nothing, or a dequeue and a release on its creator. */
  lemma ProcessFewer(c: Config, i: Info, r: Runner, i': Info)
    requires c.Valid() && r in c.serves && i.at.Hands?
    requires var o := Processed(c.kind[c.serves[r]], c.Current(r), i.task);
             i'.task == o.task && i'.at == (if o.to.None? then Gone else Incoming(o.to.value))
    ensures Remaining(i') < Remaining(i) <= 4
  {
  }

  /** A task is sent back to a queue that exists. */
  lemma ProcessTarget(c: Config, s: State, r: Runner)
    requires c.Valid() && Inv(c, s) && r in s.runners && r in c.serves && c.serves[r] in c.kind
    requires s.runners[r].Holding? && s.runners[r].id in s.tasks
    ensures var o := Processed(c.kind[c.serves[r]], c.Current(r), s.tasks[s.runners[r].id].task);
            o.to.Some? ==> o.to.value in s.queues
  {
    hide Placed, Lives, Batches, Buffers, Processed, Life, InBatch, At, Dealt;
    InHands(s, r);
    Known(c, s, s.runners[r].id, Hands(r));
    ProcessedLife(c, s.tasks[s.runners[r].id], r, 0);
  }

  lemma ProcessMeasure(c: Config, s: State, r: Runner)
    requires c.Valid() && Inv(c, s) && Advances(c, s, Run(r, Process))
    ensures Measure(Step(c, s, Run(r, Process))) < Measure(s)
  {
    hide Inv, Config.Valid, TaskSteps, RunnerSteps, Ready, Shaped, Signalled, Attends, Processed, Remaining;
    KnownBuffers(c, s, r);
    StepSource(c, s, r, Process);
    var id := s.runners[r].id;
    var s', o := Step(c, s, Run(r, Process)), Processed(c.kind[c.serves[r]], c.Current(r), s.tasks[id].task);
    ProcessFewer(c, s.tasks[id], r, s'.tasks[id]);
    ProcessTarget(c, s, r);
    FewerLeft(s, s', id);
    if o.to.Some? {
      ReadyGoes(s, s', o.to.value, Posted(s.queues[o.to.value], id));
    } else {
      SameReady(s, s');
    }
    RunnerGoes(s, s', r, Resumed(c.kind[c.serves[r]]));
  }

  lemma SameReady(s: State, s': State)
    requires s'.queues == s.queues
    ensures Ready(s') == Ready(s)
  {
  }

  lemma AdvanceMeasure(c: Config, s: State, m: Move)
    requires c.Valid() && Inv(c, s) && Advances(c, s, m)
    ensures Measure(Step(c, s, m)) < Measure(s)
  {
    hide Inv, Config.Valid, Measure, Next;
    match m.act
    case Turn(pc) => TurnMeasure(c, s, m.r, pc);
    case Reload => ReloadMeasure(c, s, m.r);
    case Take(id) => TakeMeasure(c, s, m.r, id);
    case Process => ProcessMeasure(c, s, m.r);
    case ClearOne(id) => ClearMeasure(c, s, m.r, id);
  }

  /** All moves of the run are steps of runners. */
  predicate Unposted(ms: seq<Move>) {
    forall i | 0 <= i < |ms| :: ms[i].Run?
  }

  /** With no new posts the runners come to rest: no run of their steps, finishing and clearing included, is longer than
      the measure of where it begins. */
  lemma {:induction false} ComesToRest(c: Config, s: State, ms: seq<Move>)
    requires c.Valid() && Inv(c, s) && Possible(c, s, ms) && Unposted(ms)
    ensures |ms| + Measure(After(c, s, ms)) <= Measure(s)
  {
    hide Inv, Config.Valid, Measure, Next;
    if ms != [] {
      var past := ms[..|ms| - 1];
      assert forall i | 0 <= i < |past| :: past[i] == ms[i];
      ComesToRest(c, s, past);
      AdvanceMeasure(c, After(c, s, past), ms[|ms| - 1]);
    }
  }

  ghost predicate AtRest(c: Config, s: State)
    requires c.Valid() && Inv(c, s)
  {
    forall m :: !Advances(c, s, m)
  }

  // ---------- Where the runners come to rest ----------

  lemma {:induction false} GreatestExists(s: State, m: multiset<TaskId>) returns (id: TaskId)
    requires m != multiset{} && forall x | x in m :: x in s.tasks
    ensures Greatest(s, m, id)
    decreases |m|
  {
    var x :| x in m;
    var rest := m - multiset{x};
    if rest == multiset{} {
      id := x;
      assert forall y | y in m :: y == x || y in rest;
    } else {
      var y := GreatestExists(s, rest);
      id := if s.tasks[y].task.address < s.tasks[x].task.address then x else y;
      assert forall z | z in m :: z == x || z in rest;
    }
  }

  lemma QueuedAreTasks(c: Config, s: State, p: Proc, working: bool)
    requires c.Valid() && Inv(c, s) && p in s.queues
    ensures forall x | x in Content(s.queues[p], working) :: x in s.tasks
  {
    hide Lives, Batches, Buffers, Content, Config.Valid;
    forall x | x in Content(s.queues[p], working)
      ensures x in s.tasks
    {
      AtQueue(s, p);
      assert At(s, if working then Working(p) else Incoming(p))[x] > 0;
    }
  }

  /** A consumer that has not stopped can go on, unless it waits and is not told of anything. */
  lemma ConsumerAdvances(c: Config, s: State, r: Runner) returns (m: Move)
    requires c.Valid() && Inv(c, s) && r in s.runners && s.queues[c.serves[r]].Buffered?
    requires !s.runners[r].Exited? && (s.runners[r].Waiting? ==> s.queues[c.serves[r]].ready)
    ensures Advances(c, s, m)
  {
    hide Placed, Lives, Batches, Config.Valid;
    KnownBuffers(c, s, r);
    var p := c.serves[r];
    var q, pc := s.queues[p], s.runners[r];
    QueuedAreTasks(c, s, p, true);
    QueuedAreTasks(c, s, p, false);
    match pc {
      case Top => return Run(r, Turn(if q.finished then Clearing else Waiting));
      case Waiting => return Run(r, Reload);
      case Holding(_) => return Run(r, Process);
      case Draining =>
        if q.finished || q.working == multiset{} {
          return Run(r, Turn(Top));
        }
        var x := GreatestExists(s, q.working);
        return Run(r, Take(x));
      case Clearing =>
        if q.working == multiset{} && q.incoming == multiset{} {
          return Run(r, Turn(Exited));
        }
        var x := GreatestExists(s, if q.working != multiset{} then q.working else q.incoming);
        return Run(r, ClearOne(x));
    }
  }

  /** Every queue has a runner. */
  ghost predicate Staffed(c: Config) {
    forall p | p in c.kind :: exists r :: r in c.serves && c.serves[r] == p
  }

  /** At rest a consumer has stopped, or waits with both buffers empty and was not told to finish. */
  lemma ConsumerAtRest(c: Config, s: State, r: Runner)
    requires c.Valid() && Inv(c, s) && AtRest(c, s) && r in s.runners && s.queues[c.serves[r]].Buffered?
    ensures var q := s.queues[c.serves[r]];
            && q.working == multiset{}
            && if q.finished then s.runners[r].Exited? else s.runners[r].Waiting? && q.incoming == multiset{}
  {
    hide Placed, Lives, Batches, Config.Valid, Advances;
    KnownBuffers(c, s, r);
    if !s.runners[r].Exited? && (s.runners[r].Waiting? ==> s.queues[c.serves[r]].ready) {
      var m := ConsumerAdvances(c, s, r);
      assert false;
    }
  }

  lemma FifoAtRest(c: Config, s: State, r: Runner)
    requires c.Valid() && Inv(c, s) && AtRest(c, s) && r in s.runners && s.queues[c.serves[r]].Fifo?
    ensures s.runners[r].Top? && s.queues[c.serves[r]].tasks == []
  {
    hide Placed, Lives, Batches, Config.Valid;
    KnownBuffers(c, s, r);
    assert !Advances(c, s, Run(r, Process));
    assert s.queues[c.serves[r]].tasks != [] ==> !Advances(c, s, Run(r, Take(s.queues[c.serves[r]].tasks[0])));
  }

  /** What is not released at rest came to a consumer that had been told to finish and had stopped. */
  lemma LeftAtRest(c: Config, s: State, id: TaskId)
    requires c.Valid() && Inv(c, s) && Staffed(c) && AtRest(c, s) && id in s.tasks && s.tasks[id].at != Gone
    ensures s.tasks[id].at.Incoming? && s.tasks[id].at.q in s.queues
    ensures s.queues[s.tasks[id].at.q].Buffered? && s.queues[s.tasks[id].at.q].finished
  {
    hide Lives, Batches, Buffers, AtRest;
    var at := s.tasks[id].at;
    assert Is(s, id, at) && At(s, at)[id] == 1;
    hide Placed;
    var r := if at.Hands? then at.r else AnyRunner(c, at.q);
    if s.queues[c.serves[r]].Buffered? {
      ConsumerAtRest(c, s, r);
    } else {
      FifoAtRest(c, s, r);
    }
  }

  ghost function AnyRunner(c: Config, p: Proc): (r: Runner)
    requires Staffed(c) && p in c.kind
    ensures r in c.serves && c.serves[r] == p
  {
    var r :| r in c.serves && c.serves[r] == p;
    r
  }

  /** With no new posts a consumer that was told to finish stops within boundedly many steps of the runners, and nothing
      is then left anywhere but what went back to consumers after they had stopped. */
  lemma FinishedConsumersStop(c: Config, s: State, ms: seq<Move>)
    requires c.Valid() && Inv(c, s) && Staffed(c) && Possible(c, s, ms) && Unposted(ms)
    ensures |ms| <= Measure(s)
    ensures var s' := After(c, s, ms);
            AtRest(c, s') ==>
              && (forall r | r in s'.runners && s'.queues[c.serves[r]].Buffered? ::
                    s'.runners[r].Exited? <==> s'.queues[c.serves[r]].finished)
              && forall id | id in s'.tasks && s'.tasks[id].at != Gone ::
                   s'.tasks[id].at.Incoming? && s'.tasks[id].at.q in s'.queues
                   && s'.queues[s'.tasks[id].at.q].Buffered? && s'.queues[s'.tasks[id].at.q].finished
  {
    hide Measure, Next, Placed, Lives, Batches, Buffers, AtRest, Staffed;
    ComesToRest(c, s, ms);
    var s' := After(c, s, ms);
    if AtRest(c, s') {
      forall r | r in s'.runners && s'.queues[c.serves[r]].Buffered?
        ensures s'.runners[r].Exited? <==> s'.queues[c.serves[r]].finished
      {
        ConsumerAtRest(c, s', r);
      }
      forall id | id in s'.tasks && s'.tasks[id].at != Gone
        ensures s'.tasks[id].at.Incoming? && s'.tasks[id].at.q in s'.queues
        ensures s'.queues[s'.tasks[id].at.q].Buffered? && s'.queues[s'.tasks[id].at.q].finished
      {
        LeftAtRest(c, s', id);
      }
    }
  }

  /** And with no new posts a consumer that clears its queues does stop, so that every task queued there is released. */
  lemma ClearingEnds(c: Config, s: State, ms: seq<Move>, r: Runner, id: TaskId)
    requires c.Valid() && Inv(c, s) && Possible(c, s, ms) && Unposted(ms) && ClearsAt(c, s, r, id)
    ensures |ms| <= Measure(s)
    ensures var s' := After(c, s, ms);
            r in s'.runners && id in s'.tasks && (AtRest(c, s') ==> s'.runners[r].Exited? && s'.tasks[id].releases == 1)
  {
    hide Inv, Measure, Next, AtRest, Config.Valid;
    ComesToRest(c, s, ms);
    ClearingRun(c, s, ms, r, id);
    ClearReleasesAll(c, s, ms, r, id);
    var s' := After(c, s, ms);
    if AtRest(c, s') && s'.runners[r].Clearing? {
      KnownBuffers(c, s', r);
      ConsumerAtRest(c, s', r);
    }
  }

  // ---------- Nothing told to finish ----------

  ghost predicate Live(s: State) {
    forall p | p in s.queues :: Unfinished(s.queues[p])
  }

  ghost predicate Unfinished(q: Queue) {
    q.Buffered? ==> !q.finished
  }

  /** No operation on a queue but the one that tells a consumer to finish does so. */
  lemma QueueStaysUnfinished(q: Queue, id: TaskId)
    requires Unfinished(q)
    ensures Unfinished(Posted(q, id))
    ensures q.Buffered? || q.tasks != [] ==> Unfinished(Dequeued(q, id))
    ensures q.Buffered? ==> Unfinished(Reloaded(q))
  {
  }

  lemma StepStaysLive(c: Config, s: State, m: Move)
    requires c.Valid() && Inv(c, s) && Enabled(c, s, m) && m.Run? && Live(s)
    ensures Live(Step(c, s, m)) && !m.act.ClearOne?
  {
    hide Placed, Lives, Batches, Config.Valid, Processed, Greatest, Posted, Dequeued, Reloaded, Cleared, Signalled,
      Dealt, Retagged, Shaped, Attends, Unfinished;
    KnownBuffers(c, s, m.r);
    NotClearing(s, c.serves[m.r], m.r);
    var q := s.queues[c.serves[m.r]];
    match m.act
    case Take(id) => QueueStaysUnfinished(q, id);
    case Reload => QueueStaysUnfinished(q, 0);
    case Process =>
      StepSource(c, s, m.r, m.act);
      ProcessTarget(c, s, m.r);
      var o := Processed(c.kind[c.serves[m.r]], c.Current(m.r), s.tasks[s.runners[m.r].id].task);
      if o.to.Some? {
        QueueStaysUnfinished(s.queues[o.to.value], s.runners[m.r].id);
      }
    case _ =>
  }

  lemma NotClearing(s: State, p: Proc, r: Runner)
    requires Live(s) && p in s.queues && r in s.runners && Attends(s.queues[p], s.runners[r])
    ensures !s.runners[r].Clearing?
  {
  }

  lemma {:induction false} StaysLive(c: Config, s: State, ms: seq<Move>)
    requires c.Valid() && Inv(c, s) && Possible(c, s, ms) && Unposted(ms) && Live(s)
    ensures Live(After(c, s, ms))
  {
    hide Inv, Config.Valid, Next, Live;
    if ms != [] {
      var past := ms[..|ms| - 1];
      assert forall i | 0 <= i < |past| :: past[i] == ms[i];
      StaysLive(c, s, past);
      StepStaysLive(c, After(c, s, past), ms[|ms| - 1]);
    }
  }

  /** Where nothing was told to finish every task is released at rest. */
  lemma RestMeansDrained(c: Config, s: State)
    requires c.Valid() && Inv(c, s) && Staffed(c) && Live(s) && AtRest(c, s)
    ensures forall id | id in s.tasks :: s.tasks[id].at == Gone && s.tasks[id].releases == 1 && s.tasks[id].taken <= 2
  {
    forall id | id in s.tasks
      ensures s.tasks[id].at == Gone && s.tasks[id].releases == 1 && s.tasks[id].taken <= 2
    {
      assert Life(c, s.tasks[id]);
      hide Inv, Staffed, AtRest, Config.Valid;
      if s.tasks[id].at != Gone {
        LeftAtRest(c, s, id);
      }
    }
  }

  /** Its handler is to be told of the end of a task posted to queue `p`: by the creator it goes back to, or by a frame
      runner at home. */
  ghost predicate ToldOfTheEnd(c: Config, t: Task, p: Proc)
    requires p in c.kind
  {
    t.whom && (!AtHome(c.Owner(p), t) || (c.kind[p].Frame? && t.creator == c.Owner(p)))
  }

  /** Still about, or dealt with to the end, by a runner of the queue it was posted to: its function run and its handler
      called once or not as the class of that queue's runners has it, and the handler told of the end once or not; and
      released there, or sent back to its creator and dequeued once more and released there. */
  ghost predicate Served(c: Config, i: Info) {
    i.at != Gone ||
    (&& i.runner.Some? && DealtWith(c, i, i.runner.value) && Postable(c, i.posted) && ReleasedAtHome(c, i)
     && i.taken == (if Away(i) then 2 else 1) && (!Away(i) ==> i.releaser == i.runner)
     && i.finishes == if ToldOfTheEnd(c, i.posted, i.target) then [i.posted.creator] else [])
  }

  lemma StaysServed(c: Config, s: State, m: Move, id: TaskId)
    requires c.Valid() && Inv(c, s) && Enabled(c, s, m) && m.Run? && !m.act.ClearOne?
    requires id in s.tasks && Served(c, s.tasks[id])
    ensures id in Step(c, s, m).tasks && Served(c, Step(c, s, m).tasks[id])
  {
    hide Placed, Lives, Batches, Buffers, Config.Valid, Posted, Reloaded, Processed, Dequeued, Cleared, Greatest,
      Served,
      Dealt;
    StepSource(c, s, m.r, m.act);
    if m.act.Process? && s.runners[m.r].id == id {
      KnownBuffers(c, s, m.r);
      InHands(s, m.r);
      Known(c, s, id, Hands(m.r));
      ProcessServes(c, s.tasks[id], m.r, Step(c, s, m).tasks[id]);
    } else {
      Elsewhere(c, s.tasks[id], Step(c, s, m).tasks[id]);
    }
  }

  lemma Elsewhere(c: Config, i: Info, i': Info)
    requires Served(c, i) && i' == i.(at := i'.at, taken := i'.taken) && (i'.at == Gone ==> i' == i)
    ensures Served(c, i')
  {
  }

  lemma ProcessServes(c: Config, i: Info, r: Runner, i': Info)
    requires c.Valid() && Life(c, i) && r in c.serves && i.at == Hands(r)
    requires if Processed(c.kind[c.serves[r]], c.Current(r), i.task).to.None? then i' == Released(Dealt(c, i, r), r)
             else i' == Dealt(c, i, r).(at := i'.at, batch := i'.batch) && i'.at != Gone
    ensures Served(c, i')
  {
    assert i.finishes == [] && [] + [c.Current(r)] == [c.Current(r)];
  }

  lemma {:induction false} RunServes(c: Config, s: State, ms: seq<Move>, id: TaskId)
    requires c.Valid() && Inv(c, s) && Possible(c, s, ms) && Unposted(ms) && Live(s)
    requires id in s.tasks && s.tasks[id].at != Gone
    ensures id in After(c, s, ms).tasks && Served(c, After(c, s, ms).tasks[id])
  {
    hide Inv, Config.Valid, Next, Live, Unposted;
    if ms != [] {
      var past := ms[..|ms| - 1];
      assert Unposted(past) && ms[|ms| - 1].Run? by {
        UnpostedPast(ms);
      }
      RunServes(c, s, past, id);
      StaysLive(c, s, past);
      StepStaysLive(c, After(c, s, past), ms[|ms| - 1]);
      StaysServed(c, After(c, s, past), ms[|ms| - 1], id);
    }
  }

  lemma UnpostedPast(ms: seq<Move>)
    requires ms != [] && Unposted(ms)
    ensures Unposted(ms[..|ms| - 1]) && ms[|ms| - 1].Run?
  {
  }

  /** With no new posts and nothing told to finish, every way of running on leads to rest, in a number of steps that
      where it began bounds. At rest every task has been released, after at most two dequeues; a runner of the queue it
      was posted to has dealt with it, as `ServedMeans` says. */
  lemma EverythingDrains(c: Config, s: State, ms: seq<Move>)
    requires c.Valid() && Inv(c, s) && Staffed(c) && Live(s) && Possible(c, s, ms) && Unposted(ms)
    ensures |ms| <= Measure(s)
    ensures var s' := After(c, s, ms);
            AtRest(c, s') ==>
              && (forall id | id in s'.tasks :: s'.tasks[id].releases == 1 && s'.tasks[id].taken <= 2)
              && forall id | id in s.tasks && s.tasks[id].at != Gone ::
                   id in s'.tasks && s'.tasks[id].at == Gone && Served(c, s'.tasks[id])
  {
    hide Inv, Config.Valid, Measure, Next, Served, Live, Unposted, Staffed, AtRest;
    ComesToRest(c, s, ms);
    StaysLive(c, s, ms);
    if AtRest(c, After(c, s, ms)) {
      RestMeansDrained(c, After(c, s, ms));
      forall id | id in s.tasks && s.tasks[id].at != Gone
        ensures id in After(c, s, ms).tasks && Served(c, After(c, s, ms).tasks[id])
      {
        RunServes(c, s, ms, id);
      }
    }
  }

  /** What becomes of a task is settled by the task and the queue it is posted to: its function has run exactly once if
      it has one and that queue is no frame runner's, and otherwise never; its handler was called exactly once if there
      is no function or that queue is a frame runner's, and otherwise never; it was told of the end exactly once if the
      task was made on another processor, or on the owner of that queue and a frame runner serves it. A task made on
      another processor was sent back to be released there, after a second dequeue; any other was released by the runner
      that dealt with it. */
  lemma ServedMeans(c: Config, i: Info)
    requires i.at == Gone && Served(c, i)
    ensures i.runner.Some? && i.runner.value in c.serves && c.serves[i.runner.value] == i.target
    ensures i.ran == Count(i.posted.action != WaitNotifier && i.posted.func && !ToFrame(c, i))
    ensures i.handles == Count(i.posted.action != WaitNotifier && i.posted.whom && (!i.posted.func || ToFrame(c, i)))
    ensures i.finishes == if !i.posted.whom then []
                          else if i.posted.creator == Some(i.target) then
                            if ToFrame(c, i) then [Some(i.target)] else []
                          else if i.posted.creator.None? then
                            if ToFrame(c, i) && i.target !in c.processors then [None] else []
                          else [i.posted.creator]
    ensures i.releaser.Some? && i.releaser.value in c.serves
    ensures if i.posted.creator.Some? && i.posted.creator.value != i.target then
              && i.taken == 2 && c.serves[i.releaser.value] == i.posted.creator.value
              && i.task == i.posted.(state := Handled, action := ReleaseTask)
            else
              i.taken == 1 && i.releaser == i.runner && i.task == i.posted.(state := Handled)
  {
  }
}
