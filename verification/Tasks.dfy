/** The classes behind the task protocol, each method proved against the protocol's functions: Task, TaskQueue,
    TaskConsumer, FrameRunner and MPMCTaskRunner. Each method is one step of the protocol or runs while no other
    thread is at the queue. */
module Tasks {
  import opened Wrappers
  import opened Sequences
  import opened TaskProtocol

  class TaskObject {
    const id: TaskId
    const address: nat
    var creator: Option<Proc>
    var whom: bool
    var func: bool
    var action: Action
    var state: TaskState

    function Value(): Task
      reads this
    {
      Task(address, creator, whom, func, action, state)
    }

    /** A task made on a thread whose processor is `current`. */
    constructor (id: TaskId, address: nat, current: Option<Proc>)
      ensures this.id == id && Value() == Task(address, current, false, false, NoAction, Queued)
    {
      this.id, this.address := id, address;
      creator, whom, func, action, state := current, false, false, NoAction, Queued;
    }

    method Reset()
      modifies this
      ensures Value() == Task(address, None, false, false, NoAction, Queued)
    {
      whom, func, action, state, creator := false, false, NoAction, Queued, None;
    }

    method SetState(state: TaskState)
      modifies this
      ensures Value() == old(Value()).(state := state)
    {
      this.state := state;
    }

    method SetPosion()
      modifies this
      ensures Value() == old(Value()).(action := QuitRunner)
    {
      action := QuitRunner;
    }
  }

  function Ids(s: seq<TaskObject>): (r: seq<TaskId>)
    ensures |r| == |s| && forall i | 0 <= i < |s| :: r[i] == s[i].id
  {
    Map((t: TaskObject) => t.id, s)
  }

  lemma IdsAppend(s: seq<TaskObject>, t: seq<TaskObject>)
    ensures Ids(s + t) == Ids(s) + Ids(t)
  {
  }

  lemma IdsOfLast(s: seq<TaskObject>)
    requires s != []
    ensures var front, last := s[..|s| - 1], s[|s| - 1];
            && multiset(Ids(s)) == multiset(Ids(front)) + multiset{last.id}
            && multiset(s) == multiset(front) + multiset{last}
  {
    FrontAndLast(s);
    IdsAppend(s[..|s| - 1], [s[|s| - 1]]);
    assert Ids([s[|s| - 1]]) == [s[|s| - 1].id];
  }

  ghost predicate ByAddress(s: seq<TaskObject>) {
    forall i, j | 0 <= i < j < |s| :: s[i].address <= s[j].address
  }

  /** A task put in its place by address. */
  function Pushed(s: seq<TaskObject>, task: TaskObject): seq<TaskObject> {
    if s == [] || s[|s| - 1].address <= task.address then s + [task]
    else Pushed(s[..|s| - 1], task) + [s[|s| - 1]]
  }

  lemma {:induction false} PushedElements(s: seq<TaskObject>, task: TaskObject)
    ensures multiset(Pushed(s, task)) == multiset(s) + multiset{task}
  {
    if s != [] && s[|s| - 1].address > task.address {
      PushedElements(s[..|s| - 1], task);
      assert s == s[..|s| - 1] + [s[|s| - 1]];
    }
  }

  lemma {:induction false} PushedIds(s: seq<TaskObject>, task: TaskObject)
    ensures multiset(Ids(Pushed(s, task))) == multiset(Ids(s)) + multiset{task.id}
  {
    if s == [] || s[|s| - 1].address <= task.address {
      assert Ids(s + [task]) == Ids(s) + [task.id];
    } else {
      var front, last := s[..|s| - 1], s[|s| - 1];
      PushedIds(front, task);
      assert Ids(s) == Ids(front) + [last.id];
      assert Ids(Pushed(front, task) + [last]) == Ids(Pushed(front, task)) + [last.id];
    }
  }

  lemma {:induction false} PushedKeeps(s: seq<TaskObject>, task: TaskObject)
    requires ByAddress(s)
    ensures ByAddress(Pushed(s, task)) && forall t | t in Pushed(s, task) :: t in s || t == task
  {
    if s != [] && s[|s| - 1].address > task.address {
      var front, last := s[..|s| - 1], s[|s| - 1];
      assert s == front + [last];
      PushedKeeps(front, task);
      forall t | t in front
        ensures t.address <= last.address
      {
      }
    }
  }

  /** A priority queue on task addresses: the greatest comes first. */
  class TaskQueue {
    var tasks: seq<TaskObject>

    ghost predicate Valid()
      reads this
    {
      ByAddress(tasks)
    }

    ghost function Contents(): multiset<TaskId>
      reads this
    {
      multiset(Ids(tasks))
    }

    constructor ()
      ensures Valid() && tasks == []
    {
      tasks := [];
    }

    method Enqueue(task: TaskObject)
      requires Valid()
      modifies this
      ensures Valid() && Contents() == old(Contents()) + multiset{task.id}
      ensures multiset(tasks) == multiset(old(tasks)) + multiset{task}
    {
      hide Pushed;
      PushedKeeps(tasks, task);
      PushedElements(tasks, task);
      PushedIds(tasks, task);
      tasks := Pushed(tasks, task);
    }

    /** Takes the task with the greatest address; null when there is none. */
    method Dequeue() returns (task: TaskObject?)
      requires Valid()
      modifies this
      ensures Valid() && (task == null <==> old(tasks) == [])
      ensures task == null ==> tasks == [] && old(Contents()) == multiset{}
      ensures task != null ==>
                && task in old(tasks) && (forall t | t in old(tasks) :: t.address <= task.address)
                && multiset(old(tasks)) == multiset(tasks) + multiset{task}
                && old(Contents()) == Contents() + multiset{task.id} && |tasks| + 1 == |old(tasks)|
    {
      if tasks == [] {
        return null;
      }
      IdsOfLast(tasks);
      task := tasks[|tasks| - 1];
      tasks := tasks[..|tasks| - 1];
    }

    method Empty() returns (b: bool)
      ensures b <==> tasks == []
      ensures b <==> Contents() == multiset{}
    {
      assert tasks != [] ==> Ids(tasks)[0] in Contents();
      return tasks == [];
    }
  }

  /** The double-buffered consumer. */
  class TaskConsumer {
    var incoming: TaskQueue
    var working: TaskQueue
    var newTaskReady: bool
    var finished: bool
    ghost var swaps: nat

    ghost predicate Valid()
      reads this, incoming, working
    {
      incoming != working && incoming.Valid() && working.Valid()
    }

    ghost function View(): (q: Queue)
      reads this, incoming, working
      ensures q.Buffered?
    {
      Buffered(incoming.Contents(), working.Contents(), newTaskReady, finished, swaps)
    }

    constructor ()
      ensures Valid() && fresh(incoming) && fresh(working)
      ensures View() == Buffered(multiset{}, multiset{}, false, false, 0)
    {
      finished, newTaskReady, swaps := false, false, 0;
      incoming := new TaskQueue();
      working := new TaskQueue();
    }

    method PostTask(task: TaskObject)
      requires Valid()
      modifies this, incoming
      ensures Valid() && incoming == old(incoming) && working == old(working)
      ensures View() == Posted(old(View()), task.id)
    {
      incoming.Enqueue(task);
      newTaskReady := true;
    }

    method SetFinished()
      requires Valid()
      modifies this
      ensures Valid() && incoming == old(incoming) && working == old(working)
      ensures View() == old(Buffered(incoming.Contents(), working.Contents(), true, true, swaps))
    {
      finished := true;
      newTaskReady := true;
    }

    method ReloadWorkQueue()
      requires Valid()
      modifies this
      ensures Valid() && {incoming, working} == old({incoming, working})
      ensures View() == if old(incoming.Contents()) == multiset{} then old(View())
                        else old(Buffered(working.Contents(), incoming.Contents(), newTaskReady, finished, swaps + 1))
    {
      var empty := incoming.Empty();
      if empty {
        return;
      }
      incoming, working := working, incoming;
      swaps := swaps + 1;
    }

    /** What the consumer does under the mutex once it has been woken. */
    method Wake()
      requires Valid()
      modifies this
      ensures Valid() && {incoming, working} == old({incoming, working})
      ensures View() == Reloaded(old(View()))
    {
      ReloadWorkQueue();
      newTaskReady := false;
    }

    method Dequeue() returns (task: TaskObject?)
      requires Valid()
      modifies working
      ensures Valid()
      ensures task == null ==> old(View()).working == multiset{} && View() == old(View())
      ensures task != null ==> task.id in old(View()).working && View() == Dequeued(old(View()), task.id)
    {
      task := working.Dequeue();
    }

    /** What `DoRun` does with a task it has dequeued: the task becomes `o.task` and is submitted to `o.to`, or
        released. */
    method RunTask(task: TaskObject, current: Option<Proc>) returns (o: Outcome)
      modifies task
      ensures o == Processed(Consumer, current, old(task.Value()))
      ensures task.Value() == o.task
    {
      var ran, handled, onFinish := false, false, false;
      if task.action == ReleaseTask {
        if task.whom {
          onFinish := true;
        }
        return Outcome(task.Value(), ran, handled, onFinish, None);
      }
      if task.action != WaitNotifier {
        if task.func {
          ran := true;
        } else if task.whom {
          handled := true;
        }
      }
      task.SetState(Handled);
      if task.creator.None? || task.creator == current {
        return Outcome(task.Value(), ran, handled, onFinish, None);
      }
      task.action := ReleaseTask;
      return Outcome(task.Value(), ran, handled, onFinish, task.creator);
    }

    /** Releases every task in both queues, those of the working queue first. */
    method ClearTasks() returns (released: seq<TaskId>)
      requires Valid()
      modifies incoming, working
      ensures Valid()
      ensures View() == Buffered(multiset{}, multiset{}, newTaskReady, finished, swaps)
      ensures multiset(released) == old(working.Contents() + incoming.Contents())
      ensures exists n | 0 <= n <= |released| ::
                && multiset(released[..n]) == old(working.Contents())
                && multiset(released[n..]) == old(incoming.Contents())
    {
      var first := Release(working);
      var second := Release(incoming);
      released := first + second;
      assert released[..|first|] == first && released[|first|..] == second;
    }

    /** Releases the tasks of one queue. */
    method Release(queue: TaskQueue) returns (released: seq<TaskId>)
      requires queue.Valid()
      modifies queue
      ensures queue.Valid() && queue.Contents() == multiset{}
      ensures multiset(released) == old(queue.Contents())
    {
      hide TaskQueue.Contents;
      released := [];
      var task := queue.Dequeue();
      while task != null
        invariant queue.Valid()
        invariant task != null ==> multiset(released) + queue.Contents() + multiset{task.id} == old(queue.Contents())
        invariant task == null ==> multiset(released) == old(queue.Contents()) && queue.tasks == []
        decreases task != null, |queue.tasks|
      {
        released := released + [task.id];
        task := queue.Dequeue();
      }
      EmptyContents(queue);
    }

    lemma EmptyContents(queue: TaskQueue)
      ensures queue.tasks == [] ==> queue.Contents() == multiset{}
    {
    }
  }

  /** The runner that a frame loop polls. */
  class FrameRunner {
    var waitingTasks: seq<TaskObject>

    constructor ()
      ensures waitingTasks == []
    {
      waitingTasks := [];
    }

    function View(): Queue
      reads this
    {
      Fifo(Ids(waitingTasks))
    }

    method PostTask(task: TaskObject)
      modifies this
      ensures View() == Posted(old(View()), task.id) && waitingTasks == old(waitingTasks) + [task]
    {
      IdsAppend(waitingTasks, [task]);
      assert Ids([task]) == [task.id];
      waitingTasks := waitingTasks + [task];
    }

    method RunTask(task: TaskObject, current: Option<Proc>) returns (o: Outcome)
      modifies task
      ensures o == Processed(Frame, current, old(task.Value()))
      ensures task.Value() == o.task
    {
      var ran, handled, onFinish := false, false, false;
      if task.action == ReleaseTask {
        if task.whom {
          onFinish := true;
        }
        return Outcome(task.Value(), ran, handled, onFinish, None);
      }
      if task.action != WaitNotifier {
        if task.whom {
          handled := true;
        }
      }
      task.SetState(Handled);
      if task.creator.None? || task.creator == current {
        if task.creator == current && task.whom {
          onFinish := true;
        }
        return Outcome(task.Value(), ran, handled, onFinish, None);
      }
      if task.creator.Some? {
        task.action := ReleaseTask;
      }
      return Outcome(task.Value(), ran, handled, onFinish, task.creator);
    }

    /** One round of a frame; others post `posts[0]` meanwhile. */
    method RunNext(current: Option<Proc>, posts: seq<seq<TaskObject>>)
      returns (o: Outcome, rest: seq<seq<TaskObject>>)
      requires waitingTasks != []
      modifies this, waitingTasks[0]
      ensures InFrame(old(waitingTasks), posts) == [old(waitingTasks)[0]] + InFrame(waitingTasks, rest)
      ensures o == Processed(Frame, current, old(waitingTasks[0].Value()))
      ensures old(waitingTasks)[0].Value() == o.task
    {
      hide Processed, InFrame, TaskObject.Value;
      NextInFrame(waitingTasks, posts);
      var task := waitingTasks[0];
      waitingTasks := waitingTasks[1..];
      o := RunTask(task, current);
      rest := posts;
      if posts != [] {
        waitingTasks := waitingTasks + posts[0];
        rest := posts[1..];
      }
    }

    /** One frame: tasks are dealt with in the order of posting until none waits, also those posted meanwhile. What
        others post while the `i`-th task is dealt with is `posts[i]`. */
    method DoRun(current: Option<Proc>, posts: seq<seq<TaskObject>>) returns (done: seq<Outcome>)
      requires Distinct(InFrame(waitingTasks, posts))
      modifies this, InFrame(waitingTasks, posts)
      ensures waitingTasks == []
      ensures done == AllProcessed(current, old(Values(InFrame(waitingTasks, posts))))
      ensures var tasks := InFrame(old(waitingTasks), posts);
              |done| == |tasks| && forall i | 0 <= i < |done| :: tasks[i].Value() == done[i].task
    {
      hide Processed, InFrame, AllProcessed, TaskObject.Value, Distinct;
      ghost var tasks := InFrame(waitingTasks, posts);
      ghost var values := Values(tasks);
      done := [];
      var others := posts;
      while waitingTasks != []
        invariant |done| <= |tasks| && tasks[|done|..] == InFrame(waitingTasks, others)
        invariant done == AllProcessed(current, values[..|done|])
        invariant forall i | 0 <= i < |tasks| :: tasks[i].Value() == if i < |done| then done[i].task else values[i]
        decreases |tasks| - |done|
      {
        ghost var n := |done|;
        NextInFrame(waitingTasks, others);
        assert waitingTasks[0] == tasks[n..][0] == tasks[n];
        var o;
        o, others := RunNext(current, others);
        done := done + [o];
        Suffixes(tasks, n);
        OthersDiffer(tasks, n);
        OneMoreProcessed(current, values, n);
      }
      FrameEnds(others);
      assert values[..|values|] == values;
    }
  }

  lemma OthersDiffer(s: seq<TaskObject>, n: nat)
    requires Distinct(s) && n < |s|
    ensures forall i | 0 <= i < |s| && i != n :: s[i] != s[n]
  {
  }

  lemma OneMoreProcessed(current: Option<Proc>, tasks: seq<Task>, n: nat)
    requires n < |tasks|
    ensures AllProcessed(current, tasks[..n + 1]) ==
            AllProcessed(current, tasks[..n]) + [Processed(Frame, current, tasks[n])]
  {
  }

  function Values(s: seq<TaskObject>): (r: seq<Task>)
    reads s
    ensures |r| == |s| && forall i | 0 <= i < |s| :: r[i] == s[i].Value()
  {
    seq(|s|, i requires 0 <= i < |s| reads s => s[i].Value())
  }

  /** What a frame runner makes of tasks. */
  function AllProcessed(current: Option<Proc>, tasks: seq<Task>): (r: seq<Outcome>)
    ensures |r| == |tasks| && forall i | 0 <= i < |tasks| :: r[i] == Processed(Frame, current, tasks[i])
  {
    seq(|tasks|, i requires 0 <= i < |tasks| => Processed(Frame, current, tasks[i]))
  }

  lemma FrameEnds(posts: seq<seq<TaskObject>>)
    ensures InFrame([], posts) == []
  {
  }

  lemma NextInFrame(waiting: seq<TaskObject>, posts: seq<seq<TaskObject>>)
    requires waiting != []
    ensures var tasks := InFrame(waiting, posts);
            tasks == [waiting[0]] + if posts == [] then InFrame(waiting[1..], posts)
            else InFrame(waiting[1..] + posts[0], posts[1..])
  {
  }

  /** The tasks that one frame deals with: those waiting and those posted before the queue is empty. */
  function InFrame(waiting: seq<TaskObject>, posts: seq<seq<TaskObject>>): seq<TaskObject>
    decreases |posts|, |waiting|
  {
    if waiting == [] then []
    else if posts == [] then waiting
    else [waiting[0]] + InFrame(waiting[1..] + posts[0], posts[1..])
  }

  function Concat(posts: seq<seq<TaskObject>>): seq<TaskObject> {
    if posts == [] then [] else posts[0] + Concat(posts[1..])
  }

  /** A frame deals with what waits and then with what is posted, in that order, up to the first moment at which it has
      dealt with all there is. */
  lemma {:induction false} FrameIsFirstInFirstOut(waiting: seq<TaskObject>, posts: seq<seq<TaskObject>>)
    returns (k: nat)
    ensures k <= |posts| && InFrame(waiting, posts) == waiting + Concat(posts[..k])
    ensures k < |posts| ==> |waiting + Concat(posts[..k])| == k
    ensures forall j | 0 <= j < k :: |waiting + Concat(posts[..j])| > j
    decreases |posts|
  {
    if waiting == [] || posts == [] {
      k := 0;
      assert Concat(posts[..0]) == [] && waiting + [] == waiting;
    } else {
      hide Concat;
      var m := FrameIsFirstInFirstOut(waiting[1..] + posts[0], posts[1..]);
      k := m + 1;
      NextInFrame(waiting, posts);
      forall j | 0 <= j <= m
        ensures waiting + Concat(posts[..j + 1]) ==
                [waiting[0]] + (waiting[1..] + posts[0] + Concat(posts[1..][..j]))
      {
        NextConcat(posts, j);
        FirstOfThree(waiting, posts[0], Concat(posts[1..][..j]));
      }
      forall j | 0 <= j < k
        ensures |waiting + Concat(posts[..j])| > j
      {
        if j > 0 {
          var i := j - 1;
          assert |waiting + Concat(posts[..i + 1])| == 1 + |waiting[1..] + posts[0] + Concat(posts[1..][..i])|;
        }
      }
    }
  }

  lemma NextConcat(posts: seq<seq<TaskObject>>, j: nat)
    requires j < |posts|
    ensures Concat(posts[..j + 1]) == posts[0] + Concat(posts[1..][..j])
  {
    assert posts[..j + 1][1..] == posts[1..][..j];
  }

  lemma FirstOfThree(a: seq<TaskObject>, b: seq<TaskObject>, c: seq<TaskObject>)
    requires a != []
    ensures a + (b + c) == [a[0]] + (a[1..] + b + c)
  {
  }

  /** What a worker of MPMCTaskRunner does with a task it has taken: it quits on the task made to stop it, which it
      does not release. The callback for tasks run, where one is set, is called for every actual task. */
  method RunPoolTask(task: TaskObject, current: Option<Proc>, runTaskCB: bool)
    returns (o: Option<Outcome>, calledBack: bool)
    modifies task
    ensures o.None? <==> old(task.action) == QuitRunner
    ensures o.Some? ==> o.value == Processed(Shared, current, old(task.Value())) && task.Value() == o.value.task
    ensures o.None? ==> task.Value() == old(task.Value())
    ensures calledBack <==> runTaskCB && old(task.action) in {NoAction, Timer}
  {
    var ran, handled, onFinish := false, false, false;
    calledBack := false;
    if task.action == QuitRunner {
      return None, calledBack;
    }
    if task.action == ReleaseTask {
      if task.whom {
        onFinish := true;
      }
      return Some(Outcome(task.Value(), ran, handled, onFinish, None)), calledBack;
    }
    if task.action != WaitNotifier {
      if task.func {
        ran := true;
      } else if task.whom {
        handled := true;
      }
      if runTaskCB {
        calledBack := true;
      }
    }
    task.SetState(Handled);
    if task.creator.None? || task.creator == current {
      return Some(Outcome(task.Value(), ran, handled, onFinish, None)), calledBack;
    }
    task.action := ReleaseTask;
    return Some(Outcome(task.Value(), ran, handled, onFinish, task.creator)), calledBack;
  }
}
