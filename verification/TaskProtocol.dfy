/** The task protocol of XLN/Core/Foundation/Task: tasks are posted to processors, handled, and bounced back to the
    processor they were created on for release. Runners are TaskConsumer (a double-buffered queue behind a mutex),
    FrameRunner (a lock-free queue) and MPMCTaskRunner (a queue that several threads share); every access to a queue
    is one step, and the steps of all threads interleave freely. */
module TaskProtocol {
  import opened Wrappers

  type TaskId = nat
  type Proc = nat
  type Runner = nat

  datatype Action = NoAction | QuitRunner | ReleaseTask | WaitNotifier | Timer

  datatype TaskState = Invalid | Queued | Cancelled | Handled

  /** A task: its address, by which TaskQueue orders it; the processor it was created on; whether it has a handler
      and a function to call. */
  datatype Task = Task(address: nat, creator: Option<Proc>, whom: bool, func: bool, action: Action, state: TaskState)

  datatype Kind = Consumer | Frame | Shared

  // ---------- What a runner does with one task ----------

  /** The task afterwards, whether its function was run, whether `Handle` and `OnFinish` of its handler were called,
      and the processor it was submitted to; released if to none. */
  datatype Outcome = Outcome(task: Task, ran: bool, handled: bool, finished: bool, to: Option<Proc>)

  /** A frame runner knows no functions; the other runners run a function instead of calling the handler. */
  predicate RunsFunction(k: Kind, t: Task) {
    t.action != WaitNotifier && t.func && !k.Frame?
  }

  predicate CallsHandler(k: Kind, t: Task) {
    t.action != WaitNotifier && t.whom && (k.Frame? || !t.func)
  }

  /** A task made outside all processors, or on the one that deals with it, is not sent back. */
  predicate AtHome(current: Option<Proc>, t: Task) {
    t.creator.None? || t.creator == current
  }

  function Processed(k: Kind, current: Option<Proc>, t: Task): Outcome {
    if t.action == ReleaseTask then Outcome(t, false, false, t.whom, None)
    else
      var ran, handled := RunsFunction(k, t), CallsHandler(k, t);
      if AtHome(current, t) then
        Outcome(t.(state := Handled), ran, handled, k.Frame? && t.creator == current && t.whom, None)
      else
        Outcome(t.(state := Handled, action := ReleaseTask), ran, handled, false, t.creator)
  }

  /** A task with both a function and a handler: away from home a consumer runs the function only, and the handler,
      never called for the task, is told of its end all the same. */
  lemma BothSetSkipsHandler(t: Task, away: Proc)
    requires t.func && t.whom && t.action == NoAction && t.creator.Some? && t.creator.value != away
    ensures var first := Processed(Consumer, Some(away), t);
            && first.ran && !first.handled && first.to == t.creator
            && var second := Processed(Consumer, t.creator, first.task);
            second.finished && !second.handled && second.to.None?
  {
  }

  // ---------- Queues ----------

  /** Where a runner is in its loops. */
  datatype Pc = Top | Waiting | Draining | Holding(id: TaskId) | Clearing | Exited

  /** `swaps` counts the exchanges of the two buffers. */
  datatype Queue =
    | Buffered(incoming: multiset<TaskId>, working: multiset<TaskId>, ready: bool, finished: bool, swaps: nat)
    | Fifo(tasks: seq<TaskId>)

  function Posted(q: Queue, id: TaskId): Queue {
    match q
    case Buffered(incoming, _, _, _, _) => q.(incoming := incoming + multiset{id}, ready := true)
    case Fifo(tasks) => Fifo(tasks + [id])
  }

  function Reloaded(q: Queue): Queue
    requires q.Buffered?
  {
    if q.incoming == multiset{} then q.(ready := false)
    else q.(incoming := q.working, working := q.incoming, ready := false, swaps := q.swaps + 1)
  }

  /** Without the task that `Dequeue`, or the pop of a first-in first-out queue, takes. */
  function Dequeued(q: Queue, id: TaskId): Queue
    requires q.Fifo? ==> q.tasks != []
  {
    match q
    case Buffered(_, working, _, _, _) => q.(working := working - multiset{id})
    case Fifo(tasks) => Fifo(tasks[1..])
  }

  /** Without a task that `ClearTasks` releases: first the working queue, then the incoming one. */
  function Cleared(q: Queue, id: TaskId): Queue
    requires q.Buffered?
  {
    if q.working != multiset{} then q.(working := q.working - multiset{id})
    else q.(incoming := q.incoming - multiset{id})
  }

  /** What is queued: in the working buffer of a consumer, or in the incoming one or the only queue of others. */
  function Content(q: Queue, working: bool): multiset<TaskId> {
    match q
    case Buffered(i, w, _, _, _) => if working then w else i
    case Fifo(tasks) => if working then multiset{} else multiset(tasks)
  }

  /** The batch that a task posted now will come in. */
  function NextBatch(q: Queue): nat {
    if q.Buffered? then q.swaps + 1 else 0
  }

  /** A consumer that is not told of new tasks has none. */
  ghost predicate Signalled(q: Queue) {
    q.Buffered? && !q.ready ==> q.incoming == multiset{}
  }

  /** A consumer that waits has emptied its working queue, and is told if it is to finish; one that clears or has
      stopped was told to finish; one that has stopped has emptied its working queue. */
  ghost predicate Attends(q: Queue, pc: Pc) {
    if q.Fifo? then pc.Top? || pc.Holding?
    else
      && (pc.Top? ==> q.finished || q.working == multiset{})
      && (pc.Waiting? ==> q.working == multiset{} && (q.finished ==> q.ready))
      && (pc.Clearing? || pc.Exited? ==> q.finished)
      && (pc.Exited? ==> q.working == multiset{})
  }

  lemma PostedContent(q: Queue, id: TaskId)
    ensures forall w, x :: Content(Posted(q, id), w)[x] == Content(q, w)[x] + if x == id && !w then 1 else 0
    ensures Posted(q, id).Buffered? == q.Buffered? && Signalled(Posted(q, id))
    ensures forall pc :: Attends(q, pc) ==> Attends(Posted(q, id), pc)
    ensures NextBatch(Posted(q, id)) == NextBatch(q)
  {
  }

  lemma DequeuedContent(q: Queue, id: TaskId)
    requires Content(q, q.Buffered?)[id] > 0 && (q.Fifo? ==> q.tasks != [] && q.tasks[0] == id)
    ensures forall w, x :: Content(Dequeued(q, id), w)[x] + (if x == id && w == q.Buffered? then 1 else 0) ==
                           Content(q, w)[x]
    ensures Dequeued(q, id).Buffered? == q.Buffered? && NextBatch(Dequeued(q, id)) == NextBatch(q)
    ensures Signalled(q) ==> Signalled(Dequeued(q, id))
  {
    if q.Fifo? {
      FrontTaken(q.tasks);
    }
  }

  lemma FrontTaken(s: seq<TaskId>)
    requires s != []
    ensures forall x :: multiset(s[1..])[x] + (if x == s[0] then 1 else 0) == multiset(s)[x]
  {
    assert s == [s[0]] + s[1..];
  }

  lemma ClearedContent(q: Queue, id: TaskId, working: bool)
    requires q.Buffered? && working == (q.working != multiset{}) && Content(q, working)[id] > 0
    ensures forall w, x :: Content(Cleared(q, id), w)[x] + (if x == id && w == working then 1 else 0) ==
                           Content(q, w)[x]
    ensures Cleared(q, id).Buffered? && NextBatch(Cleared(q, id)) == NextBatch(q)
    ensures Signalled(q) ==> Signalled(Cleared(q, id))
  {
  }

  // ---------- The state of the whole system ----------

  /** Which runner class serves each queue, which queue each thread serves, and which queues belong to a processor. */
  datatype Config = Config(kind: map<Proc, Kind>, serves: map<Runner, Proc>, processors: set<Proc>)
  {
    ghost predicate Valid() {
      && (forall r | r in serves :: serves[r] in kind)
      && (forall r, r' | r in serves && r' in serves && r != r' && serves[r] == serves[r'] :: kind[serves[r]] == Shared)
      && processors <= kind.Keys
    }

    /** The processor that queue `p` belongs to, if it does. */
    function Owner(p: Proc): Option<Proc> {
      if p in processors then Some(p) else None
    }

    /** `TaskProcessor::GetCurrent` on the thread of runner `r`. */
    function Current(r: Runner): Option<Proc>
      requires r in serves
    {
      Owner(serves[r])
    }
  }

  datatype Place = Incoming(q: Proc) | Working(q: Proc) | Hands(r: Runner) | Gone

  /** A task with its history: as it was posted, to which queue, and as it is; the runner that dealt with it, not the
      one that only released it; how often it was dequeued, its function run and its handler called; the processors on
      which `OnFinish` was called; how often it was released, and by which runner; where it is, and in which batch of
      that queue it comes. */
  datatype Info = Info(posted: Task, target: Proc, task: Task, runner: Option<Runner>, taken: nat, ran: nat,
                       handles: nat, finishes: seq<Option<Proc>>, releases: nat, releaser: Option<Runner>, at: Place,
                       batch: nat)

  function Count(b: bool): nat {
    if b then 1 else 0
  }

  datatype State = State(tasks: map<TaskId, Info>, queues: map<Proc, Queue>, runners: map<Runner, Pc>)

  ghost predicate Shaped(c: Config, s: State) {
    && s.queues.Keys == c.kind.Keys && s.runners.Keys == c.serves.Keys
    && forall q | q in s.queues :: s.queues[q].Buffered? == c.kind[q].Consumer?
  }

  ghost predicate Initial(c: Config, s: State) {
    && Shaped(c, s) && s.tasks == map[]
    && (forall q | q in s.queues ::
          s.queues[q] == if c.kind[q].Consumer? then Buffered(multiset{}, multiset{}, false, false, 0) else Fifo([]))
    && forall r | r in s.runners :: s.runners[r] == Top
  }

  // ---------- What every step keeps ----------

  /** What is at a place. */
  function At(s: State, at: Place): multiset<TaskId> {
    match at
    case Incoming(q) => if q in s.queues then Content(s.queues[q], false) else multiset{}
    case Working(q) => if q in s.queues then Content(s.queues[q], true) else multiset{}
    case Hands(r) => if r in s.runners && s.runners[r].Holding? then multiset{s.runners[r].id} else multiset{}
    case Gone => multiset{}
  }

  ghost predicate Is(s: State, id: TaskId, at: Place) {
    id in s.tasks && s.tasks[id].at == at
  }

  /** Queues and hands hold every task that is not gone exactly once, in exactly one place, and nothing else. */
  ghost predicate Placed(s: State) {
    forall at, id | at != Gone :: At(s, at)[id] == if Is(s, id, at) then 1 else 0
  }

  /** Runner `r` serves the queue the task was posted to, and has dealt with the task as runners of that queue do; it
      has sent the task back if it was not at home there. */
  ghost predicate DealtWith(c: Config, i: Info, r: Runner) {
    && r in c.serves && c.serves[r] == i.target && i.target in c.kind
    && i.ran == Count(RunsFunction(c.kind[i.target], i.posted))
    && i.handles == Count(CallsHandler(c.kind[i.target], i.posted))
    && i.task == i.posted.(state := Handled,
                 action := if AtHome(c.Owner(i.target), i.posted) then i.posted.action else ReleaseTask)
  }

  /** On the way to being dealt with the task is in the queue it was posted to, or with a runner of that queue. */
  ghost predicate AtTarget(c: Config, i: Info) {
    match i.at
    case Incoming(p) => p == i.target
    case Working(p) => p == i.target
    case Hands(r) => r in c.serves && c.serves[r] == i.target
    case Gone => true
  }

  /** On the way back the task is with its creator, or with a runner of its creator. */
  ghost predicate BackAtCreator(c: Config, i: Info) {
    && i.task.action == ReleaseTask && i.task.creator.Some? && i.taken == 1 + Count(i.at.Hands?)
    && match i.at
       case Incoming(p) => p == i.task.creator.value
       case Working(p) => p == i.task.creator.value
       case Hands(r) => r in c.serves && c.serves[r] == i.task.creator.value
       case Gone => true
  }

  /** The task was made on a processor other than the owner of the queue it was posted to. */
  predicate Away(i: Info) {
    i.posted.creator.Some? && i.posted.creator.value != i.target
  }

  /** A task that is gone was released by a runner of its creator if it had been dealt with away from it, and else by a
      runner of the queue it was posted to; then after one dequeue at most. */
  ghost predicate ReleasedAtHome(c: Config, i: Info) {
    && (i.releaser.Some? <==> i.at == Gone)
    && (i.at == Gone ==>
          && i.releaser.value in c.serves
          && if i.runner.Some? && Away(i) then
               c.serves[i.releaser.value] == i.posted.creator.value && i.task.action == ReleaseTask && i.taken >= 1
             else
               c.serves[i.releaser.value] == i.target && i.task.action == i.posted.action && i.taken <= 1)
  }

  /** The life of one task: as posted, and where it was posted to, until a runner there deals with it, and then back at
      its creator or gone; dequeued at most twice and released once when it is gone; `OnFinish` called at most once, on
      the creator's processor, when a runner has dealt with the task. */
  ghost predicate Life(c: Config, i: Info) {
    && Postable(c, i.posted) && i.taken <= 2 && i.releases == Count(i.at == Gone) && ReleasedAtHome(c, i)
    && (i.runner.None? ==> i.task == i.posted && i.ran == 0 && i.handles == 0 && AtTarget(c, i))
    && (i.runner.None? && i.at != Gone ==> i.taken == Count(i.at.Hands?))
    && (i.runner.Some? ==> DealtWith(c, i, i.runner.value))
    && (i.runner.Some? && i.at != Gone ==> Away(i) && BackAtCreator(c, i))
    && (i.finishes != [] ==> i.finishes == [i.posted.creator] && i.at == Gone && i.posted.whom && i.runner.Some?)
  }

  ghost predicate Lives(c: Config, s: State) {
    forall id | id in s.tasks :: Life(c, s.tasks[id])
  }

  ghost predicate Buffers(c: Config, s: State)
    requires c.Valid() && Shaped(c, s)
  {
    && (forall p | p in s.queues :: Signalled(s.queues[p]))
    && forall r | r in s.runners :: Attends(s.queues[c.serves[r]], s.runners[r])
  }

  /** What is in a consumer's working queue or hands belongs to the current batch, what is incoming to the next. */
  ghost predicate InBatch(c: Config, queues: map<Proc, Queue>, i: Info) {
    match i.at
    case Incoming(p) => p in queues && i.batch == NextBatch(queues[p])
    case Working(p) => p in queues && queues[p].Buffered? && i.batch == queues[p].swaps
    case Hands(r) =>
      && r in c.serves && c.serves[r] in queues
      && (queues[c.serves[r]].Buffered? ==> i.batch == queues[c.serves[r]].swaps)
    case Gone => true
  }

  ghost predicate Batches(c: Config, s: State) {
    forall id | id in s.tasks :: InBatch(c, s.queues, s.tasks[id])
  }

  ghost predicate Inv(c: Config, s: State)
    requires c.Valid()
  {
    Shaped(c, s) && Placed(s) && Lives(c, s) && Buffers(c, s) && Batches(c, s)
  }

  // ---------- Steps ----------

  /** What the thread of a runner does: go on to another point of its loops; wake and exchange the buffers; dequeue a
      task; deal with the task it took; release a task left in its queues. */
  datatype Act = Turn(pc: Pc) | Reload | Take(id: TaskId) | Process | ClearOne(id: TaskId)

  /** A thread creates a task and posts it; a consumer is told to finish; the thread of a runner moves on. */
  datatype Move = Post(id: TaskId, task: Task, p: Proc) | SetFinished(p: Proc) | Run(r: Runner, act: Act)

  /** A fresh task that a caller may post: a task to handle, or the one made by `WaitTaskComplete`. */
  predicate Postable(c: Config, t: Task) {
    && t.action in {NoAction, WaitNotifier, Timer} && t.state == Queued
    && (t.action == WaitNotifier ==> !t.whom)
    && (t.creator.Some? ==> t.creator.value in c.processors)
  }

  /** The element that `TaskQueue::Dequeue` returns: one with the greatest address. */
  predicate Greatest(s: State, m: multiset<TaskId>, id: TaskId) {
    id in m && id in s.tasks && forall x | x in m && x in s.tasks :: s.tasks[x].task.address <= s.tasks[id].task.address
  }

  /** A consumer goes to wait; leaves a working queue that it has emptied, or, once told to finish, any; goes on to
      clear its queues; and stops when they are empty. */
  predicate CanTurn(q: Queue, pc: Pc, pc': Pc) {
    && q.Buffered?
    && match pc'
       case Waiting => pc.Top? && !q.finished
       case Top => pc.Draining? && (q.finished || q.working == multiset{})
       case Clearing => pc.Top? && q.finished
       case Exited => pc.Clearing? && q.working == multiset{} && q.incoming == multiset{}
       case _ => false
  }

  predicate CanReload(q: Queue, pc: Pc) {
    q.Buffered? && pc.Waiting? && q.ready
  }

  predicate CanTake(s: State, q: Queue, pc: Pc, id: TaskId) {
    if q.Buffered? then pc.Draining? && !q.finished && Greatest(s, q.working, id)
    else pc.Top? && q.tasks != [] && id == q.tasks[0]
  }

  predicate CanClear(s: State, q: Queue, pc: Pc, id: TaskId) {
    q.Buffered? && pc.Clearing? && Greatest(s, if q.working != multiset{} then q.working else q.incoming, id)
  }

  predicate Enabled(c: Config, s: State, m: Move)
    requires c.Valid() && Shaped(c, s)
  {
    match m
    case Post(id, task, p) => id !in s.tasks && p in s.queues && Postable(c, task)
    case SetFinished(p) => p in s.queues && s.queues[p].Buffered?
    case Run(r, act) =>
      && r in s.runners
      && var q, pc := s.queues[c.serves[r]], s.runners[r];
      match act
      case Turn(pc') => CanTurn(q, pc, pc')
      case Reload => CanReload(q, pc)
      case Take(id) => CanTake(s, q, pc, id)
      case Process => pc.Holding?
      case ClearOne(id) => CanClear(s, q, pc, id)
  }

  function Fresh(task: Task, p: Proc, batch: nat): Info {
    Info(task, p, task, None, 0, 0, 0, [], 0, None, Incoming(p), batch)
  }

  function Next(c: Config, s: State, m: Move): State
    requires c.Valid() && Inv(c, s) && Enabled(c, s, m)
  {
    match m
    case Post(id, task, p) =>
      var i := Fresh(task, p, NextBatch(s.queues[p]));
      s.(tasks := s.tasks[id := i], queues := s.queues[p := Posted(s.queues[p], id)])
    case SetFinished(p) =>
      s.(queues := s.queues[p := s.queues[p].(finished := true, ready := true)])
    case Run(r, act) =>
      match act
      case Reload => AfterReload(c, s, r)
      case Take(id) => AfterTake(c, s, r, id)
      case Process => AfterProcess(c, s, r)
      case ClearOne(id) => AfterClear(c, s, r, id)
      case Turn(pc) => s.(runners := s.runners[r := pc])
  }

  /** The tasks, when those incoming at `q` have become the working ones. */
  function Retagged(s: State, q: Proc): map<TaskId, Info> {
    map x | x in s.tasks :: if s.tasks[x].at == Incoming(q) then s.tasks[x].(at := Working(q)) else s.tasks[x]
  }

  function AfterReload(c: Config, s: State, r: Runner): State
    requires c.Valid() && Inv(c, s) && r in s.runners && CanReload(s.queues[c.serves[r]], s.runners[r])
  {
    var q := c.serves[r];
    s.(tasks := Retagged(s, q), queues := s.queues[q := Reloaded(s.queues[q])], runners := s.runners[r := Draining])
  }

  function AfterTake(c: Config, s: State, r: Runner, id: TaskId): State
    requires c.Valid() && Inv(c, s) && r in s.runners && CanTake(s, s.queues[c.serves[r]], s.runners[r], id)
  {
    var p := c.serves[r];
    assert At(s, Incoming(p))[id] > 0 || At(s, Working(p))[id] > 0;
    s.(tasks := s.tasks[id := s.tasks[id].(taken := s.tasks[id].taken + 1, at := Hands(r))],
    queues := s.queues[p := Dequeued(s.queues[p], id)], runners := s.runners[r := Holding(id)])
  }

  /** The loop head of a runner after a task. */
  function Resumed(k: Kind): Pc {
    if k.Consumer? then Draining else Top
  }

  /** The history of a task that runner `r` has dealt with or released. */
  function Dealt(c: Config, i: Info, r: Runner): Info
    requires r in c.serves && c.serves[r] in c.kind
  {
    var o := Processed(c.kind[c.serves[r]], c.Current(r), i.task);
    i.(task := o.task, runner := if i.task.action == ReleaseTask then i.runner else Some(r),
    ran := i.ran + Count(o.ran), handles := i.handles + Count(o.handled),
    finishes := i.finishes + if o.finished then [c.Current(r)] else [])
  }

  function Released(i: Info, r: Runner): Info {
    i.(releases := i.releases + 1, releaser := Some(r), at := Gone)
  }

  function AfterProcess(c: Config, s: State, r: Runner): State
    requires c.Valid() && Inv(c, s) && r in s.runners && s.runners[r].Holding?
  {
    var id := s.runners[r].id;
    assert At(s, Hands(r))[id] > 0;
    var i := s.tasks[id];
    var o := Processed(c.kind[c.serves[r]], c.Current(r), i.task);
    var i' := Dealt(c, i, r);
    var pcs := s.runners[r := Resumed(c.kind[c.serves[r]])];
    if o.to.None? then
      s.(tasks := s.tasks[id := Released(i', r)], runners := pcs)
    else
      var p := o.to.value;
      s.(tasks := s.tasks[id := i'.(at := Incoming(p), batch := NextBatch(s.queues[p]))],
      queues := s.queues[p := Posted(s.queues[p], id)], runners := pcs)
  }

  function AfterClear(c: Config, s: State, r: Runner, id: TaskId): State
    requires c.Valid() && Inv(c, s) && r in s.runners && CanClear(s, s.queues[c.serves[r]], s.runners[r], id)
  {
    var p := c.serves[r];
    s.(tasks := s.tasks[id := Released(s.tasks[id], r)],
    queues := s.queues[p := Cleared(s.queues[p], id)])
  }

  /** What is at a place changes by a task `id` that goes from one place to another. */
  ghost predicate Shift(s: State, s': State, at: Place, id: TaskId, from: Place, to: Place) {
    forall x :: At(s', at)[x] + (if x == id && at == from then 1 else 0) ==
                At(s, at)[x] + (if x == id && at == to then 1 else 0)
  }

  /** One task, and nothing else, goes from one place to another. */
  ghost predicate Moved(s: State, s': State, id: TaskId, from: Place, to: Place) {
    && (forall at | at != Gone :: Shift(s, s', at, id, from, to))
    && s'.tasks.Keys == s.tasks.Keys + {id}
    && (forall x | x in s.tasks && x != id :: s'.tasks[x].at == s.tasks[x].at)
    && s'.tasks[id].at == to
  }

  lemma MovedPlaced(s: State, s': State, id: TaskId, from: Place, to: Place)
    requires Placed(s) && Moved(s, s', id, from, to) && from != to
    requires if from == Gone then id !in s.tasks else Is(s, id, from)
    ensures Placed(s')
  {
    forall at, x | at != Gone
      ensures At(s', at)[x] == if Is(s', x, at) then 1 else 0
    {
      assert At(s, at)[x] == if Is(s, x, at) then 1 else 0;
      assert Shift(s, s', at, id, from, to);
    }
  }

  /** Queue `p` and runner `r` change, no other. */
  ghost predicate Only(s: State, s': State, p: Proc, r: Runner) {
    && s'.queues.Keys == s.queues.Keys && s'.runners.Keys == s.runners.Keys
    && (forall q | q in s.queues && q != p :: s'.queues[q] == s.queues[q])
    && (forall x | x in s.runners && x != r :: s'.runners[x] == s.runners[x])
    && (p in s.queues ==> s'.queues[p].Buffered? == s.queues[p].Buffered?)
  }

  lemma BuffersStep(c: Config, s: State, s': State, p: Proc, r: Runner)
    requires c.Valid() && Shaped(c, s) && Buffers(c, s) && Only(s, s', p, r)
    requires p in s.queues ==> Signalled(s'.queues[p])
    requires r in s.runners ==> Attends(s'.queues[c.serves[r]], s'.runners[r])
    requires p in s.queues ==>
               || (r in s.runners && c.serves[r] == p)
               || forall pc :: Attends(s.queues[p], pc) ==> Attends(s'.queues[p], pc)
    ensures Shaped(c, s') && Buffers(c, s')
  {
    hide Signalled;
    forall x | x in s'.runners
      ensures Attends(s'.queues[c.serves[x]], s'.runners[x])
    {
      assert Attends(s.queues[c.serves[x]], s.runners[x]);
    }
  }

  /** Task `id` changes, no other. */
  ghost predicate OnlyTask(s: State, s': State, id: TaskId) {
    s'.tasks.Keys == s.tasks.Keys + {id} && forall x | x in s.tasks && x != id :: s'.tasks[x] == s.tasks[x]
  }

  lemma SameBatch(c: Config, queues: map<Proc, Queue>, queues': map<Proc, Queue>, i: Info, p: Proc)
    requires InBatch(c, queues, i) && queues'.Keys == queues.Keys && p in queues
    requires queues'[p].Buffered? == queues[p].Buffered? && NextBatch(queues'[p]) == NextBatch(queues[p])
    requires forall q | q in queues && q != p :: queues'[q] == queues[q]
    ensures InBatch(c, queues', i)
  {
  }

  lemma TaskStep(c: Config, s: State, s': State, id: TaskId, p: Proc, r: Runner)
    requires c.Valid() && Shaped(c, s) && Batches(c, s) && Lives(c, s)
    requires Only(s, s', p, r) && OnlyTask(s, s', id)
    requires p in s.queues ==> NextBatch(s'.queues[p]) == NextBatch(s.queues[p])
    requires InBatch(c, s'.queues, s'.tasks[id]) && Life(c, s'.tasks[id])
    ensures Batches(c, s') && Lives(c, s')
  {
    hide Life, InBatch;
    forall x | x in s'.tasks
      ensures InBatch(c, s'.queues, s'.tasks[x]) && Life(c, s'.tasks[x])
    {
      if x != id {
        assert InBatch(c, s.queues, s.tasks[x]) && Life(c, s.tasks[x]);
        if p in s.queues {
          SameBatch(c, s.queues, s'.queues, s.tasks[x], p);
        } else {
          assert s'.queues == s.queues;
        }
      }
    }
  }

  function Source(c: Config, s: State, r: Runner): Place
    requires c.Valid() && Shaped(c, s) && r in s.runners
  {
    if s.queues[c.serves[r]].Buffered? then Working(c.serves[r]) else Incoming(c.serves[r])
  }

  lemma SameAt(s: State, s': State, p: Proc, r: Runner, at: Place)
    requires Only(s, s', p, r) && at !in {Incoming(p), Working(p), Hands(r)}
    ensures At(s', at) == At(s, at)
  {
    hide Content;
  }

  lemma MovesOnly(s: State, s': State, id: TaskId, from: Place, to: Place, p: Proc, r: Runner)
    requires Only(s, s', p, r)
    requires Shift(s, s', Incoming(p), id, from, to) && Shift(s, s', Working(p), id, from, to)
             && Shift(s, s', Hands(r), id, from, to)
    requires from in {Incoming(p), Working(p), Hands(r), Gone} && to in {Incoming(p), Working(p), Hands(r), Gone}
    ensures forall at | at != Gone :: Shift(s, s', at, id, from, to)
  {
    hide At;
    forall at | at != Gone
      ensures Shift(s, s', at, id, from, to)
    {
      if at !in {Incoming(p), Working(p), Hands(r)} {
        SameAt(s, s', p, r, at);
      }
    }
  }

  /** A step that takes task `id` from one place to another, and changes queue `p` and runner `r` only. */
  lemma StepKeeps(c: Config, s: State, s': State, id: TaskId, from: Place, to: Place, p: Proc, r: Runner)
    requires c.Valid() && Inv(c, s) && OnlyTask(s, s', id) && s'.tasks[id].at == to && Shifts(s, s', id, from, to, p, r)
    requires from in {Incoming(p), Working(p), Hands(r), Gone} && to in {Incoming(p), Working(p), Hands(r), Gone}
    requires from != to && if from == Gone then id !in s.tasks else Is(s, id, from)
    requires p in s.queues ==> Signalled(s'.queues[p]) && NextBatch(s'.queues[p]) == NextBatch(s.queues[p])
    requires r in s.runners ==> Attends(s'.queues[c.serves[r]], s'.runners[r])
    requires p in s.queues ==>
               || (r in s.runners && c.serves[r] == p)
               || forall pc :: Attends(s.queues[p], pc) ==> Attends(s'.queues[p], pc)
    requires InBatch(c, s'.queues, s'.tasks[id]) && Life(c, s'.tasks[id])
    ensures Inv(c, s')
  {
    hide Signalled, Shift, Attends, Life, InBatch;
    BuffersStep(c, s, s', p, r) by {
      hide Placed, Lives, Batches;
    }
    TaskStep(c, s, s', id, p, r) by {
      hide Placed, Buffers;
    }
    MovesOnly(s, s', id, from, to, p, r);
    hide Lives, Buffers, Batches, Only;
    MovedPlaced(s, s', id, from, to);
  }

  ghost predicate Shifts(s: State, s': State, id: TaskId, from: Place, to: Place, p: Proc, r: Runner) {
    && Only(s, s', p, r)
    && Shift(s, s', Incoming(p), id, from, to) && Shift(s, s', Working(p), id, from, to)
    && Shift(s, s', Hands(r), id, from, to)
  }

  function QueuePlace(p: Proc, working: bool): Place {
    if working then Working(p) else Incoming(p)
  }

  lemma QueueShift(s: State, s': State, p: Proc, w: bool, id: TaskId, from: Place, to: Place)
    requires p in s.queues && p in s'.queues
    requires forall x :: Content(s'.queues[p], w)[x] + Count(x == id && from == QueuePlace(p, w)) ==
                         Content(s.queues[p], w)[x] + Count(x == id && to == QueuePlace(p, w))
    ensures Shift(s, s', QueuePlace(p, w), id, from, to)
  {
    AtQueue(s, p);
    AtQueue(s', p);
    hide At, Content;
  }

  lemma TakenInHands(s: State, s': State, r: Runner, id: TaskId, from: Place)
    requires r in s.runners && !s.runners[r].Holding? && r in s'.runners && s'.runners[r] == Holding(id)
             && from != Hands(r)
    ensures Shift(s, s', Hands(r), id, from, Hands(r))
  {
    assert At(s, Hands(r)) == multiset{} && At(s', Hands(r)) == multiset{id};
  }

  lemma TakeShifts(s: State, s': State, p: Proc, r: Runner, id: TaskId, from: Place)
    requires p in s.queues && r in s.runners && !s.runners[r].Holding?
    requires from == if s.queues[p].Buffered? then Working(p) else Incoming(p)
    requires At(s, from)[id] > 0 && (s.queues[p].Fifo? ==> s.queues[p].tasks != [] && s.queues[p].tasks[0] == id)
    requires s'.queues == s.queues[p := Dequeued(s.queues[p], id)] && s'.runners == s.runners[r := Holding(id)]
    ensures Shifts(s, s', id, from, Hands(r), p, r)
    ensures s'.queues[p].Buffered? == s.queues[p].Buffered? && NextBatch(s'.queues[p]) == NextBatch(s.queues[p])
    ensures Signalled(s.queues[p]) ==> Signalled(s'.queues[p])
  {
    hide Content, Dequeued, Signalled, NextBatch, Shift, At;
    AtQueue(s, p);
    DequeuedContent(s.queues[p], id);
    QueueShift(s, s', p, false, id, from, Hands(r));
    QueueShift(s, s', p, true, id, from, Hands(r));
    TakenInHands(s, s', r, id, from);
  }

  lemma Known(c: Config, s: State, id: TaskId, from: Place)
    requires c.Valid() && Inv(c, s) && from != Gone && At(s, from)[id] > 0
    ensures Is(s, id, from) && InBatch(c, s.queues, s.tasks[id]) && Life(c, s.tasks[id])
  {
    hide At, Life, InBatch;
    assert Is(s, id, from);
  }

  lemma KnownBuffers(c: Config, s: State, r: Runner)
    requires c.Valid() && Inv(c, s) && r in s.runners
    ensures r in c.serves && Shaped(c, s) && c.serves[r] in c.kind && s.queues.Keys == c.kind.Keys
    ensures c.serves[r] in s.queues && Signalled(s.queues[c.serves[r]]) && Attends(s.queues[c.serves[r]], s.runners[r])
    ensures s.queues[c.serves[r]].Buffered? == c.kind[c.serves[r]].Consumer?
  {
    hide Signalled, Attends;
  }

  lemma TakenLife(c: Config, queues: map<Proc, Queue>, i: Info, r: Runner)
    requires Life(c, i) && InBatch(c, queues, i) && r in c.serves && c.serves[r] in queues
    requires i.at == if queues[c.serves[r]].Buffered? then Working(c.serves[r]) else Incoming(c.serves[r])
    ensures var i' := i.(taken := i.taken + 1, at := Hands(r)); Life(c, i') && InBatch(c, queues, i')
  {
  }

  lemma CanTakeMeans(s: State, p: Proc, r: Runner, id: TaskId)
    requires p in s.queues && r in s.runners && CanTake(s, s.queues[p], s.runners[r], id)
    ensures At(s, if s.queues[p].Buffered? then Working(p) else Incoming(p))[id] > 0
    ensures !s.runners[r].Holding? && (s.queues[p].Fifo? ==> s.queues[p].tasks != [] && s.queues[p].tasks[0] == id)
    ensures Attends(Dequeued(s.queues[p], id), Holding(id))
  {
  }

  lemma TakeKeeps(c: Config, s: State, r: Runner, id: TaskId)
    requires c.Valid() && Inv(c, s) && r in s.runners && CanTake(s, s.queues[c.serves[r]], s.runners[r], id)
    ensures Inv(c, AfterTake(c, s, r, id))
  {
    hide Inv, Shaped, Placed, Content, Lives, Batches, At, Shift, Only, Signalled, Greatest, Shifts, Life, InBatch,
      Config.Valid,
      Moved, Attends, CanTake, CanClear, CanReload, CanTurn, Dequeued, Posted, Cleared, Reloaded, Processed, Dealt;
    KnownBuffers(c, s, r);
    CanTakeMeans(s, c.serves[r], r, id);
    var s', from, p := AfterTake(c, s, r, id), Source(c, s, r), c.serves[r];
    Known(c, s, id, from);
    TakeShifts(s, s', p, r, id, from);
    TakenLife(c, s.queues, s.tasks[id], r);
    assert InBatch(c, s'.queues, s'.tasks[id]) by {
      SameBatch(c, s.queues, s'.queues, s'.tasks[id], p);
    }
    StepKeeps(c, s, s', id, from, Hands(r), p, r);
  }

  // ---------- Clearing ----------

  lemma ClearShifts(s: State, s': State, p: Proc, r: Runner, id: TaskId, working: bool)
    requires p in s.queues && s.queues[p].Buffered? && working == (s.queues[p].working != multiset{})
    requires Content(s.queues[p], working)[id] > 0
    requires s'.queues == s.queues[p := Cleared(s.queues[p], id)] && s'.runners == s.runners
    ensures Shifts(s, s', id, if working then Working(p) else Incoming(p), Gone, p, r)
    ensures NextBatch(s'.queues[p]) == NextBatch(s.queues[p])
    ensures Signalled(s.queues[p]) ==> Signalled(s'.queues[p])
  {
    hide Content, Cleared, Signalled, NextBatch;
    ClearedContent(s.queues[p], id, working);
  }

  lemma CanClearMeans(s: State, q: Queue, pc: Pc, id: TaskId)
    requires CanClear(s, q, pc, id) && Attends(q, pc)
    ensures q.Buffered? && Content(q, q.working != multiset{})[id] > 0 && Attends(Cleared(q, id), pc)
  {
  }

  lemma ClearedLife(c: Config, queues: map<Proc, Queue>, i: Info, r: Runner)
    requires Life(c, i) && r in c.serves && i.at in {Incoming(c.serves[r]), Working(c.serves[r])}
    ensures Life(c, Released(i, r)) && InBatch(c, queues, Released(i, r))
  {
  }

  lemma ClearKeeps(c: Config, s: State, r: Runner, id: TaskId)
    requires c.Valid() && Inv(c, s) && r in s.runners && CanClear(s, s.queues[c.serves[r]], s.runners[r], id)
    ensures Inv(c, AfterClear(c, s, r, id))
  {
    hide Inv, Shaped, Placed, Content, Lives, Batches, At, Shift, Only, Signalled, Greatest, Shifts, Life, InBatch,
      Config.Valid,
      Moved, Attends, CanTake, CanClear, CanReload, CanTurn, Dequeued, Posted, Cleared, Reloaded, Processed, Dealt;
    KnownBuffers(c, s, r);
    var p := c.serves[r];
    CanClearMeans(s, s.queues[p], s.runners[r], id);
    var working := s.queues[p].working != multiset{};
    var s', from := AfterClear(c, s, r, id), if working then Working(p) else Incoming(p);
    AtQueue(s, p);
    Known(c, s, id, from);
    ClearShifts(s, s', p, r, id, working);
    ClearedLife(c, s'.queues, s.tasks[id], r);
    StepKeeps(c, s, s', id, from, Gone, p, r);
  }

  lemma AtQueue(s: State, p: Proc)
    requires p in s.queues
    ensures At(s, Incoming(p)) == Content(s.queues[p], false) && At(s, Working(p)) == Content(s.queues[p], true)
  {
  }

  // ---------- Posting ----------

  lemma PostShifts(s: State, s': State, p: Proc, r: Runner, id: TaskId)
    requires p in s.queues
    requires s'.queues == s.queues[p := Posted(s.queues[p], id)] && s'.runners == s.runners
    ensures Shifts(s, s', id, Gone, Incoming(p), p, r)
    ensures Signalled(s'.queues[p]) && NextBatch(s'.queues[p]) == NextBatch(s.queues[p])
    ensures forall pc :: Attends(s.queues[p], pc) ==> Attends(s'.queues[p], pc)
  {
    hide Content, Posted, Signalled, Attends;
    PostedContent(s.queues[p], id);
  }

  lemma FreshLife(c: Config, queues: map<Proc, Queue>, task: Task, p: Proc)
    requires p in queues && Postable(c, task)
    ensures var i := Fresh(task, p, NextBatch(queues[p])); Life(c, i) && InBatch(c, queues, i)
  {
  }

  lemma PostKeeps(c: Config, s: State, id: TaskId, task: Task, p: Proc)
    requires c.Valid() && Inv(c, s) && Enabled(c, s, Post(id, task, p))
    ensures Inv(c, Next(c, s, Post(id, task, p)))
  {
    hide Inv, Shaped, Placed, Content, Lives, Batches, At, Shift, Only, Signalled, Greatest, Shifts, Life, InBatch,
      Config.Valid,
      Moved, Attends, CanTake, CanClear, CanReload, CanTurn, Dequeued, Posted, Cleared, Reloaded, Processed, Dealt;
    var s' := Next(c, s, Post(id, task, p));
    var r: Runner := NoRunner(c, s);
    PostShifts(s, s', p, r, id);
    FreshLife(c, s'.queues, task, p);
    StepKeeps(c, s, s', id, Gone, Incoming(p), p, r);
  }

  /** Some number that no runner has. */
  lemma NoRunner(c: Config, s: State) returns (r: Runner)
    ensures r !in s.runners
  {
    r := Above(s.runners.Keys);
  }

  lemma {:induction false} Above(xs: set<nat>) returns (n: nat)
    ensures forall x | x in xs :: x < n
  {
    if xs == {} {
      n := 0;
    } else {
      var x :| x in xs;
      var m := Above(xs - {x});
      n := if m <= x then x + 1 else m;
      assert forall y | y in xs :: y == x || y in xs - {x};
    }
  }

  // ---------- Processing ----------

  lemma ProcessedLife(c: Config, i: Info, r: Runner, b: nat)
    requires c.Valid() && Life(c, i) && r in c.serves && i.at == Hands(r)
    ensures var o := Processed(c.kind[c.serves[r]], c.Current(r), i.task);
            var i' := Dealt(c, i, r);
            if o.to.None? then Life(c, Released(i', r))
            else o.to.value in c.kind && Life(c, i'.(at := Incoming(o.to.value), batch := b))
  {
  }

  lemma ReleaseShifts(s: State, s': State, r: Runner, id: TaskId, p: Proc, pc: Pc)
    requires r in s.runners && s.runners[r] == Holding(id) && !pc.Holding?
    requires s'.queues == s.queues && s'.runners == s.runners[r := pc]
    ensures Shifts(s, s', id, Hands(r), Gone, p, r)
  {
    hide Content, Signalled, Attends;
  }

  lemma BounceShifts(s: State, s': State, r: Runner, id: TaskId, p: Proc, pc: Pc)
    requires r in s.runners && s.runners[r] == Holding(id) && !pc.Holding? && p in s.queues
    requires s'.queues == s.queues[p := Posted(s.queues[p], id)] && s'.runners == s.runners[r := pc]
    ensures Shifts(s, s', id, Hands(r), Incoming(p), p, r)
    ensures Signalled(s'.queues[p]) && NextBatch(s'.queues[p]) == NextBatch(s.queues[p])
    ensures forall pc :: Attends(s.queues[p], pc) ==> Attends(s'.queues[p], pc)
  {
    hide Content, Posted, Signalled, Attends;
    PostedContent(s.queues[p], id);
  }

  lemma InHands(s: State, r: Runner)
    requires r in s.runners && s.runners[r].Holding?
    ensures At(s, Hands(r)) == multiset{s.runners[r].id}
  {
  }

  lemma ResumedAttends(q: Queue, k: Kind)
    requires q.Buffered? == k.Consumer?
    ensures Attends(q, Resumed(k)) && !Resumed(k).Holding?
  {
  }

  lemma GoneInBatch(c: Config, queues: map<Proc, Queue>, i: Info)
    ensures i.at == Gone ==> InBatch(c, queues, i)
    ensures i.at.Incoming? && i.at.q in queues && i.batch == NextBatch(queues[i.at.q]) ==> InBatch(c, queues, i)
  {
  }

  lemma ProcessKeeps(c: Config, s: State, r: Runner)
    requires c.Valid() && Inv(c, s) && r in s.runners && s.runners[r].Holding?
    ensures Inv(c, AfterProcess(c, s, r))
  {
    hide Inv, Shaped, Placed, Content, Lives, Batches, At, Shift, Only, Signalled, Greatest, Shifts, Life, InBatch,
      Config.Valid,
      Moved, Attends, CanTake, CanClear, CanReload, CanTurn, Dequeued, Posted, Cleared, Reloaded, Processed, Dealt;
    hide Resumed, NextBatch;
    KnownBuffers(c, s, r);
    var id, p, k := s.runners[r].id, c.serves[r], c.kind[c.serves[r]];
    InHands(s, r);
    Known(c, s, id, Hands(r));
    var i, s' := s.tasks[id], AfterProcess(c, s, r);
    ProcessedLife(c, i, r, s'.tasks[id].batch);
    GoneInBatch(c, s'.queues, s'.tasks[id]);
    var o := Processed(k, c.Current(r), i.task);
    ResumedAttends(s.queues[p], k);
    if o.to.None? {
      ReleaseShifts(s, s', r, id, p, Resumed(k));
      StepKeeps(c, s, s', id, Hands(r), Gone, p, r);
    } else {
      BounceShifts(s, s', r, id, o.to.value, Resumed(k));
      assert Attends(s'.queues[p], Resumed(k));
      StepKeeps(c, s, s', id, Hands(r), Incoming(o.to.value), o.to.value, r);
    }
  }

  // ---------- Exchanging the buffers ----------

  lemma TurnKeeps(c: Config, s: State, r: Runner, pc: Pc)
    requires c.Valid() && Inv(c, s) && r in s.runners && CanTurn(s.queues[c.serves[r]], s.runners[r], pc)
    ensures Inv(c, s.(runners := s.runners[r := pc]))
  {
    var s' := s.(runners := s.runners[r := pc]);
    assert Placed(s') by {
      hide Lives, Batches, Buffers, Config.Valid;
      TurnPlaced(s, r, pc);
    }
    hide Placed;
  }

  lemma TurnPlaced(s: State, r: Runner, pc: Pc)
    requires Placed(s) && r in s.runners && !s.runners[r].Holding? && !pc.Holding?
    ensures Placed(s.(runners := s.runners[r := pc]))
  {
    hide Content, At;
    var s' := s.(runners := s.runners[r := pc]);
    forall at, id | at != Gone
      ensures At(s', at)[id] == if Is(s', id, at) then 1 else 0
    {
      TurnAt(s, r, pc, at);
      assert At(s, at)[id] == if Is(s, id, at) then 1 else 0;
    }
  }

  lemma TurnAt(s: State, r: Runner, pc: Pc, at: Place)
    requires r in s.runners && !s.runners[r].Holding? && !pc.Holding?
    ensures At(s.(runners := s.runners[r := pc]), at) == At(s, at)
  {
    hide Content;
  }

  lemma FinishedPlaced(s: State, p: Proc, q: Queue)
    requires Placed(s) && p in s.queues && Content(q, true) == Content(s.queues[p], true)
             && Content(q, false) == Content(s.queues[p], false)
    ensures Placed(s.(queues := s.queues[p := q]))
  {
    hide Content;
    var s' := s.(queues := s.queues[p := q]);
    forall at, id | at != Gone
      ensures At(s', at)[id] == if Is(s', id, at) then 1 else 0
    {
      assert At(s, at)[id] == if Is(s, id, at) then 1 else 0;
    }
  }

  lemma SetFinishedKeeps(c: Config, s: State, p: Proc)
    requires c.Valid() && Inv(c, s) && Enabled(c, s, SetFinished(p))
    ensures Inv(c, Next(c, s, SetFinished(p)))
  {
    hide Placed, Lives, Batches, Buffers, Config.Valid, Content;
    var s', q := Next(c, s, SetFinished(p)), s.queues[p].(finished := true, ready := true);
    FinishedContent(s.queues[p]);
    FinishedPlaced(s, p, q);
    FinishedBuffers(c, s, p);
    assert Lives(c, s') && Batches(c, s') by {
      FinishedBatches(c, s, p);
    }
  }

  lemma FinishedContent(q: Queue)
    requires q.Buffered?
    ensures var q' := q.(finished := true, ready := true); forall w :: Content(q', w) == Content(q, w)
  {
  }

  lemma FinishedBuffers(c: Config, s: State, p: Proc)
    requires c.Valid() && Inv(c, s) && Enabled(c, s, SetFinished(p))
    ensures Shaped(c, Next(c, s, SetFinished(p))) && Buffers(c, Next(c, s, SetFinished(p)))
  {
    hide Placed, Lives, Batches;
    var s' := Next(c, s, SetFinished(p));
    var r := NoRunner(c, s);
    BuffersStep(c, s, s', p, r);
  }

  lemma FinishedBatches(c: Config, s: State, p: Proc)
    requires c.Valid() && Inv(c, s) && Enabled(c, s, SetFinished(p))
    ensures Lives(c, Next(c, s, SetFinished(p))) && Batches(c, Next(c, s, SetFinished(p)))
  {
    hide Placed, Buffers, Life, InBatch, Config.Valid;
    var s' := Next(c, s, SetFinished(p));
    forall id | id in s.tasks
      ensures InBatch(c, s'.queues, s.tasks[id])
    {
      SameBatch(c, s.queues, s'.queues, s.tasks[id], p);
    }
  }

  lemma ReloadPlaced(s: State, s': State, p: Proc, r: Runner)
    requires Placed(s) && p in s.queues && s.queues[p].Buffered? && s.queues[p].working == multiset{}
    requires r in s.runners && !s.runners[r].Holding?
    requires s' == State(Retagged(s, p), s.queues[p := Reloaded(s.queues[p])], s.runners[r := Draining])
    ensures Placed(s')
  {
    hide Reloaded, Content;
    ReloadedContent(s.queues[p]);
    forall at, id | at != Gone
      ensures At(s', at)[id] == if Is(s', id, at) then 1 else 0
    {
      assert At(s, at)[id] == if Is(s, id, at) then 1 else 0;
      AtQueue(s, p);
      assert At(s, Incoming(p))[id] == if Is(s, id, Incoming(p)) then 1 else 0;
      assert At(s, Working(p))[id] == if Is(s, id, Working(p)) then 1 else 0;
    }
  }

  lemma ReloadedContent(q: Queue)
    requires q.Buffered? && q.working == multiset{}
    ensures Content(Reloaded(q), true) == Content(q, false)
            && Content(Reloaded(q), false) == Content(q, true) == multiset{}
  {
  }

  lemma ReloadedTask(c: Config, s: State, r: Runner, id: TaskId)
    requires c.Valid() && Inv(c, s) && r in s.runners && CanReload(s.queues[c.serves[r]], s.runners[r]) && id in s.tasks
    ensures var s' := AfterReload(c, s, r); Life(c, s'.tasks[id]) && InBatch(c, s'.queues, s'.tasks[id])
  {
    hide Inv, Shaped, Placed, Lives, Batches, Buffers, Signalled, Attends, Config.Valid, At;
    KnownTask(c, s, id);
    KnownBuffers(c, s, r);
    CanReloadMeans(s.queues[c.serves[r]], s.runners[r]);
    var p, i := c.serves[r], s.tasks[id];
    match i.at
    case Incoming(q) =>
      if q == p {
        assert AfterReload(c, s, r).tasks[id] == i.(at := Working(p));
        QueuedCount(s, p, id);
      }
    case Working(q) =>
      if q == p {
        QueuedCount(s, p, id);
      }
    case Hands(x) => OnlyRunnerHolds(c, s, r, x, id);
    case Gone =>
  }

  lemma KnownTask(c: Config, s: State, id: TaskId)
    requires c.Valid() && Inv(c, s) && id in s.tasks
    ensures Life(c, s.tasks[id]) && InBatch(c, s.queues, s.tasks[id])
    ensures s.tasks[id].at != Gone ==> At(s, s.tasks[id].at)[id] == 1
  {
    hide At, Life, InBatch, Config.Valid;
    assert s.tasks[id].at != Gone ==> Is(s, id, s.tasks[id].at);
  }

  lemma QueuedCount(s: State, p: Proc, id: TaskId)
    requires p in s.queues && s.queues[p].Buffered?
    ensures At(s, Incoming(p))[id] == s.queues[p].incoming[id] && At(s, Working(p))[id] == s.queues[p].working[id]
  {
  }

  /** While the one runner of a consumer waits no runner holds a task for it. */
  lemma OnlyRunnerHolds(c: Config, s: State, r: Runner, x: Runner, id: TaskId)
    requires c.Valid() && Inv(c, s) && r in s.runners && s.queues[c.serves[r]].Buffered? && !s.runners[r].Holding?
    requires x in c.serves && c.serves[x] in s.queues && At(s, Hands(x))[id] == 1
    ensures c.serves[x] != c.serves[r]
  {
    hide Placed, Lives, Batches, Buffers;
  }

  lemma ReloadKeeps(c: Config, s: State, r: Runner)
    requires c.Valid() && Inv(c, s) && r in s.runners && CanReload(s.queues[c.serves[r]], s.runners[r])
    ensures Inv(c, AfterReload(c, s, r))
  {
    hide Inv, Shaped, Placed, Life, InBatch, Buffers, Signalled, Attends, Config.Valid, CanReload, Retagged, Reloaded;
    KnownBuffers(c, s, r);
    CanReloadMeans(s.queues[c.serves[r]], s.runners[r]);
    var s' := AfterReload(c, s, r);
    PlacedOf(c, s);
    ReloadPlaced(s, s', c.serves[r], r);
    ReloadBuffers(c, s, r);
    assert s'.tasks.Keys == s.tasks.Keys by {
      RetaggedKeys(s, c.serves[r]);
    }
    forall id | id in s'.tasks
      ensures Life(c, s'.tasks[id]) && InBatch(c, s'.queues, s'.tasks[id])
    {
      ReloadedTask(c, s, r, id);
    }
    assert Lives(c, s') && Batches(c, s');
    hide AfterReload, Lives, Batches;
    InvOf(c, s');
  }

  lemma PlacedOf(c: Config, s: State)
    requires c.Valid() && Inv(c, s)
    ensures Placed(s)
  {
  }

  lemma RetaggedKeys(s: State, q: Proc)
    ensures Retagged(s, q).Keys == s.tasks.Keys
  {
  }

  lemma CanReloadMeans(q: Queue, pc: Pc)
    requires CanReload(q, pc) && Attends(q, pc)
    ensures q.Buffered? && q.working == multiset{} && pc == Waiting
  {
  }

  lemma ReloadBuffers(c: Config, s: State, r: Runner)
    requires c.Valid() && Inv(c, s) && r in s.runners && CanReload(s.queues[c.serves[r]], s.runners[r])
    ensures var s' := AfterReload(c, s, r); Shaped(c, s') && Buffers(c, s')
  {
    hide Placed, Lives, Batches;
    BuffersStep(c, s, AfterReload(c, s, r), c.serves[r], r);
  }

  lemma InvOf(c: Config, s: State)
    requires c.Valid() && Shaped(c, s) && Placed(s) && Lives(c, s) && Buffers(c, s) && Batches(c, s)
    ensures Inv(c, s)
  {
  }

  lemma NextKeeps(c: Config, s: State, m: Move)
    requires c.Valid() && Inv(c, s) && Enabled(c, s, m)
    ensures Inv(c, Next(c, s, m))
  {
    hide Inv, Shaped, Config.Valid, CanTake, CanTurn, CanClear, CanReload, AfterTake, AfterProcess, AfterReload,
      AfterClear;
    match m
    case Post(id, task, p) => PostKeeps(c, s, id, task, p);
    case SetFinished(p) => SetFinishedKeeps(c, s, p);
    case Run(r, act) =>
      match act
      case Turn(pc) => TurnKeeps(c, s, r, pc);
      case Reload => ReloadKeeps(c, s, r);
      case Take(id) => TakeKeeps(c, s, r, id);
      case Process => ProcessKeeps(c, s, r);
      case ClearOne(id) => ClearKeeps(c, s, r, id);
  }

  lemma InitialInv(c: Config, s: State)
    requires c.Valid() && Initial(c, s)
    ensures Inv(c, s)
  {
  }
}
