/** Download admission of XLN/Client/DownloaderEventCurl.cpp and CurlPool.cpp: tasks wait in a lock-free queue, the
    event thread admits them to curl while there is room, and what curl reports as done is fulfilled and makes room
    again. Senders on other threads interleave with every step of the event thread. */
module Downloads {
  import opened Machine
  import opened Sequences

  type TaskId = nat
  type Handle = nat
  type Sender = nat

  /** Where the event thread is: in its dispatch loop, in `OnInterrupt`, or in `CheckSocket`, having read a message or
      not. */
  datatype Loop = Dispatching | Admitting | Checking(hasMsg: bool)

  /** `senders` are those between their push and their `event_active`; `pending` is the activated interrupt event;
      handles below `nextHandle` have been made. `sent`, `admitted` and `fulfilled` record what happened to tasks. */
  datatype State = State(
    waiting: seq<TaskId>, running: map<Handle, TaskId>, pool: seq<Handle>, cap: Int32, pending: bool,
    senders: set<Sender>, loop: Loop,
    nextHandle: Handle, sent: seq<TaskId>, admitted: seq<TaskId>, fulfilled: multiset<TaskId>)

  datatype Message = Done(handle: Handle) | Other

  datatype Move =
    | Push(t: Sender, task: TaskId) | Activate(t: Sender)
    | StartInterrupt | Admit | EndInterrupt
    | StartCheck | Read(msg: Message) | EndCheck

  /** The cap as the comparison with a size takes it: a negative one becomes huge. */
  function Limit(cap: Int32): nat
  {
    if cap < 0 then UINT64_LIMIT + cap else cap
  }

  predicate Room(s: State)
  {
    s.cap == 0 || |s.running| < Limit(s.cap)
  }

  /** A task is sent once; curl reports done only what runs. */
  predicate Enabled(s: State, m: Move)
  {
    match m
    case Push(t, task) => t !in s.senders && task !in s.sent
    case Activate(t) => t in s.senders
    case StartInterrupt => s.loop.Dispatching? && s.pending
    case Admit => s.loop.Admitting? && Room(s) && s.waiting != []
    case EndInterrupt => s.loop.Admitting? && !(Room(s) && s.waiting != [])
    case StartCheck => s.loop.Dispatching?
    case Read(msg) => s.loop.Checking? && (msg.Done? ==> msg.handle in s.running)
    case EndCheck => s.loop.Checking?
  }

  /** `CurlPool::Obtain`: a pooled handle, or else a new one. */
  function Obtained(s: State): Handle {
    if s.pool != [] then s.pool[0] else s.nextHandle
  }

  function Admitted(s: State): State
    requires s.waiting != []
  {
    var task, handle := s.waiting[0], Obtained(s);
    var s' := if s.pool != [] then s.(pool := s.pool[1..]) else s.(nextHandle := s.nextHandle + 1);
    s'.(waiting := s.waiting[1..], admitted := s.admitted + [task], running := s.running[handle := task])
  }

  function Completed(s: State, handle: Handle): State
    requires handle in s.running
  {
    s.(fulfilled := s.fulfilled + multiset{s.running[handle]}, running := s.running - {handle},
    pool := s.pool + [handle])
  }

  function Next(s: State, m: Move): State
    requires Enabled(s, m)
  {
    match m
    case Push(t, task) => s.(waiting := s.waiting + [task], sent := s.sent + [task], senders := s.senders + {t})
    case Activate(t) => s.(pending := true, senders := s.senders - {t})
    case StartInterrupt => s.(pending := false, loop := Admitting)
    case Admit => Admitted(s)
    case EndInterrupt => s.(loop := Dispatching)
    case StartCheck => s.(loop := Checking(false))
    case Read(msg) => (if msg.Done? then Completed(s, msg.handle) else s).(loop := Checking(true))
    case EndCheck => s.(loop := Dispatching, pending := s.pending || s.loop.hasMsg)
  }

  // ---------- What every step keeps ----------

  /** A handle is pooled at most once and never both pooled and running. */
  ghost predicate HandlesApart(running: map<Handle, TaskId>, pool: seq<Handle>, nextHandle: Handle) {
    && Distinct(pool)
    && (forall h | h in pool :: h !in running && h < nextHandle)
    && forall h | h in running :: h < nextHandle
  }

  ghost predicate Runs(running: map<Handle, TaskId>, task: TaskId) {
    exists h :: h in running && running[h] == task
  }

  /** Tasks are admitted in the order in which they were sent; each one admitted runs on one handle or has been
      fulfilled once. */
  ghost predicate TasksOnce(s: State) {
    && s.sent == s.admitted + s.waiting && Distinct(s.sent)
    && (forall task :: task in s.admitted <==> Runs(s.running, task) || task in s.fulfilled)
    && (forall task :: s.fulfilled[task] <= if Runs(s.running, task) then 0 else 1)
    && (forall h, k | h in s.running && k in s.running && h != k :: s.running[h] != s.running[k])
  }

  /** A handle is made only when all handles run, so that there are never more handles than may run. */
  ghost predicate WithinCap(s: State)
  {
    && |s.running| + |s.pool| == s.nextHandle
    && (s.cap != 0 ==> s.nextHandle <= Limit(s.cap))
  }

  /** Nothing waits that could run, unless the event thread is going to look. */
  ghost predicate Attended(s: State)
  {
    s.waiting == [] || !Room(s) || s.pending || s.senders != {} || s.loop.Admitting? || s.loop == Checking(true)
  }

  ghost predicate Inv(s: State) {
    HandlesApart(s.running, s.pool, s.nextHandle) && TasksOnce(s) && WithinCap(s) && Attended(s)
  }

  lemma AdmitHandles(s: State)
    requires s.waiting != [] && HandlesApart(s.running, s.pool, s.nextHandle)
    ensures var s' := Admitted(s); HandlesApart(s'.running, s'.pool, s'.nextHandle)
    ensures Obtained(s) !in s.running
  {
    if s.pool != [] {
      var h0, rest := s.pool[0], s.pool[1..];
      assert forall i | 0 <= i < |rest| :: rest[i] == s.pool[i + 1] && rest[i] != h0;
      assert h0 in s.pool && forall h | h in rest :: h in s.pool && h != h0;
      assert Distinct(rest);
    }
  }

  lemma CompleteHandles(s: State, h: Handle)
    requires h in s.running && HandlesApart(s.running, s.pool, s.nextHandle)
    ensures var s' := Completed(s, h); HandlesApart(s'.running, s'.pool, s'.nextHandle)
  {
  }

  lemma AdmittedParts(s: State)
    requires s.waiting != []
    ensures var s', task := Admitted(s), s.waiting[0];
            && s'.sent == s.sent && s'.fulfilled == s.fulfilled && s'.waiting == s.waiting[1..]
            && s'.admitted == s.admitted + [task] && s'.running == s.running[Obtained(s) := task]
  {
  }

  lemma RunsOneMore(running: map<Handle, TaskId>, h: Handle, task: TaskId)
    requires h !in running
    ensures forall x :: Runs(running[h := task], x) <==> Runs(running, x) || x == task
    ensures forall k | k in running :: Runs(running, running[k])
  {
    var running' := running[h := task];
    forall x
      ensures Runs(running', x) <==> Runs(running, x) || x == task
    {
      if Runs(running, x) {
        var k :| k in running && running[k] == x;
        assert running'[k] == x;
      }
      assert running'[h] == task;
    }
  }

  /** The first waiting task has not been admitted before. */
  lemma NextIsNew(s: State)
    requires s.waiting != [] && TasksOnce(s)
    ensures var task := s.waiting[0]; task !in s.admitted && !Runs(s.running, task) && task !in s.fulfilled
    ensures s.sent == (s.admitted + [s.waiting[0]]) + s.waiting[1..]
  {
    hide Runs;
    assert s.sent[|s.admitted|] == s.waiting[0];
    assert forall i | 0 <= i < |s.admitted| :: s.sent[i] == s.admitted[i];
  }

  lemma AdmitTasks(s: State)
    requires s.waiting != [] && TasksOnce(s) && Obtained(s) !in s.running
    ensures TasksOnce(Admitted(s))
  {
    hide Runs, Distinct, Obtained, Admitted;
    AdmittedParts(s);
    NextIsNew(s);
    RunsOneMore(s.running, Obtained(s), s.waiting[0]);
  }

  lemma CompleteTasks(s: State, h: Handle)
    requires h in s.running && TasksOnce(s)
    ensures TasksOnce(Completed(s, h))
  {
    var task, s' := s.running[h], Completed(s, h);
    assert Runs(s.running, task);
    forall x
      ensures Runs(s'.running, x) <==> Runs(s.running, x) && x != task
    {
      if Runs(s.running, x) && x != task {
        var k :| k in s.running && s.running[k] == x;
        assert s'.running[k] == x;
      }
    }
    hide Runs, Distinct;
  }

  lemma PushTasks(s: State, task: TaskId)
    requires TasksOnce(s) && task !in s.sent
    ensures TasksOnce(s.(waiting := s.waiting + [task], sent := s.sent + [task]))
  {
    hide Runs;
  }

  lemma AdmitKeeps(s: State)
    requires Inv(s) && Enabled(s, Admit)
    ensures Inv(Admitted(s))
  {
    hide HandlesApart, TasksOnce;
    AdmitHandles(s);
    AdmitTasks(s);
    hide Obtained;
    AdmittedParts(s);
  }

  lemma CompleteKeeps(s: State, h: Handle)
    requires Inv(s) && s.loop.Checking? && h in s.running
    ensures Inv(Completed(s, h).(loop := Checking(true)))
  {
    hide HandlesApart, TasksOnce;
    CompleteHandles(s, h);
    CompleteTasks(s, h);
    SameTasks(Completed(s, h), Completed(s, h).(loop := Checking(true)));
    Fewer(s.running, h);
  }

  lemma PushKeeps(s: State, t: Sender, task: TaskId)
    requires Inv(s) && Enabled(s, Push(t, task))
    ensures Inv(Next(s, Push(t, task)))
  {
    hide HandlesApart, TasksOnce;
    PushTasks(s, task);
    SameTasks(s.(waiting := s.waiting + [task], sent := s.sent + [task]), Next(s, Push(t, task)));
  }

  lemma NextKeeps(s: State, m: Move)
    requires Inv(s) && Enabled(s, m)
    ensures Inv(Next(s, m))
  {
    hide HandlesApart, TasksOnce, Admitted, Completed;
    match m
    case Push(t, task) => PushKeeps(s, t, task);
    case Admit => AdmitKeeps(s);
    case Read(msg) =>
      if msg.Done? {
        CompleteKeeps(s, msg.handle);
      } else {
        SameTasks(s, Next(s, m));
      }
    case _ => SameTasks(s, Next(s, m));
  }

  lemma Fewer(m: map<Handle, TaskId>, h: Handle)
    requires h in m
    ensures |m - {h}| == |m| - 1
  {
    assert (m - {h}).Keys == m.Keys - {h};
    assert |m.Keys| == |m| && |(m - {h}).Keys| == |m - {h}|;
  }

  lemma SameTasks(s: State, s': State)
    requires TasksOnce(s) && s'.sent == s.sent && s'.admitted == s.admitted && s'.waiting == s.waiting
    requires s'.running == s.running && s'.fulfilled == s.fulfilled
    ensures TasksOnce(s')
  {
  }

  // ---------- Runs ----------

  ghost predicate Initial(s: State) {
    s == State([], map[], [], s.cap, false, {}, Dispatching, 0, [], [], multiset{})
  }

  predicate Possible(s: State, ms: seq<Move>)
    decreases |ms|, 0
  {
    ms == [] || (Possible(s, ms[..|ms| - 1]) && Enabled(After(s, ms[..|ms| - 1]), ms[|ms| - 1]))
  }

  function After(s: State, ms: seq<Move>): State
    requires Possible(s, ms)
    decreases |ms|, 1
  {
    if ms == [] then s else Next(After(s, ms[..|ms| - 1]), ms[|ms| - 1])
  }

  lemma {:induction false} AlwaysInv(s: State, ms: seq<Move>)
    requires Inv(s) && Possible(s, ms)
    ensures Inv(After(s, ms)) && After(s, ms).cap == s.cap
  {
    hide Inv;
    if ms != [] {
      AlwaysInv(s, ms[..|ms| - 1]);
      NextKeeps(After(s, ms[..|ms| - 1]), ms[|ms| - 1]);
    }
  }

  /** In every run, whatever the senders do: never more handles are made than the cap says, each is running or pooled
      once, tasks are admitted in the order sent, each is on one handle or fulfilled once, and nothing is left waiting
      beside free room once the event thread has no reason to look again. A negative cap is no bound at all, as the
      comparison takes it for a huge one. */
  lemma Admission(s0: State, ms: seq<Move>)
    requires Initial(s0) && Possible(s0, ms)
    ensures var s := After(s0, ms);
            && s.cap == s0.cap && |s.running| + |s.pool| == s.nextHandle && (s.cap > 0 ==> s.nextHandle <= s.cap)
            && (forall h | h in s.pool :: h !in s.running && multiset(s.pool)[h] == 1)
            && s.sent == s.admitted + s.waiting
            && (forall task | task in s.admitted :: s.fulfilled[task] == if Runs(s.running, task) then 0 else 1)
            && (!s.pending && s.senders == {} && s.loop.Dispatching? ==>
                  s.waiting == [] || (s.cap > 0 && |s.running| == s.cap)
                  || (s.cap < 0 && |s.running| == UINT64_LIMIT + s.cap))
  {
    AlwaysInv(s0, ms);
    var s := After(s0, ms);
    forall h | h in s.pool
      ensures multiset(s.pool)[h] == 1
    {
      OnceIn(s.pool, h);
    }
  }

  // ---------- Progress ----------

  /** A step on something already sent or read: no push and no message. */
  predicate Advances(s: State, m: Move) {
    Enabled(s, m) && !m.Push? && !m.StartCheck? && !m.Read?
  }

  function Measure(s: State): nat {
    3 * |s.senders| + (if s.pending then 2 else 0) + |s.waiting| + (match s.loop
                                                                    case Dispatching => 0
                                                                    case Admitting => 1
                                                                    case Checking(_) => 3)
  }

  lemma AdvanceMeasure(s: State, m: Move)
    requires Advances(s, m)
    ensures Measure(Next(s, m)) < Measure(s)
  {
  }

  /** Left alone, the event thread comes to rest in boundedly many steps, and then everything that waits waits for
      room. */
  lemma {:induction false} WaitsOnlyForRoom(s: State, ms: seq<Move>)
    requires Inv(s) && Possible(s, ms) && forall i | 0 <= i < |ms| :: !ms[i].Push? && !ms[i].StartCheck? && !ms[i].Read?
    ensures |ms| + Measure(After(s, ms)) <= Measure(s)
    ensures var s' := After(s, ms); (forall m :: !Advances(s', m)) ==>
              s'.waiting == [] || (s'.cap > 0 && |s'.running| == s'.cap)
              || (s'.cap < 0 && |s'.running| == UINT64_LIMIT + s'.cap)
  {
    hide Measure, Next;
    AlwaysInv(s, ms);
    var s' := After(s, ms);
    if forall m :: !Advances(s', m) {
      assert !Advances(s', StartInterrupt) && !Advances(s', Admit) && !Advances(s', EndInterrupt)
             && !Advances(s', EndCheck);
      forall t
        ensures t !in s'.senders
      {
        assert !Advances(s', Activate(t));
      }
      assert s'.senders == {};
    }
    if ms != [] {
      var past := ms[..|ms| - 1];
      assert forall i | 0 <= i < |past| :: past[i] == ms[i];
      WaitsOnlyForRoom(s, past);
      AdvanceMeasure(After(s, past), ms[|ms| - 1]);
    }
  }

  // ---------- The event thread's callbacks ----------

  /** What a run of `OnInterrupt` comes to when nothing is sent meanwhile. */
  function AdmittedAll(s: State): State
    decreases |s.waiting|
  {
    if Room(s) && s.waiting != [] then AdmittedAll(Admitted(s)) else s
  }

  /** What a run of `CheckSocket` comes to. */
  function CompletedAll(s: State, msgs: seq<Message>): State {
    if msgs == [] then s
    else
      var past := CompletedAll(s, msgs[..|msgs| - 1]);
      var msg := msgs[|msgs| - 1];
      AfterMessage(past, msg)
  }

  /** A finished transfer is fulfilled; a handle that is not known is only pooled. */
  function AfterMessage(s: State, msg: Message): State {
    if msg.Other? then s
    else if msg.handle in s.running then Completed(s, msg.handle)
    else s.(pool := s.pool + [msg.handle])
  }

  lemma NoMessages(s: State)
    ensures CompletedAll(s, []) == s
  {
  }

  lemma OneMoreMessage(s: State, msgs: seq<Message>, i: nat)
    requires i < |msgs|
    ensures CompletedAll(s, msgs[..i + 1]) == AfterMessage(CompletedAll(s, msgs[..i]), msgs[i])
  {
    assert msgs[..i + 1][..i] == msgs[..i];
  }

  lemma AdmitsOneMore(s: State)
    ensures AdmittedAll(s) == if Room(s) && s.waiting != [] then AdmittedAll(Admitted(s)) else s
  {
  }

  /** `OnInterrupt` admits as many tasks as there is room for, in the order sent, each on a handle of its own. */
  lemma {:induction false} AdmitsWhatFits(s: State)
    requires HandlesApart(s.running, s.pool, s.nextHandle)
    ensures var s' := AdmittedAll(s);
            && (s'.waiting == [] || (s'.cap > 0 && |s'.running| >= s'.cap)
                || (s'.cap < 0 && |s'.running| >= UINT64_LIMIT + s'.cap))
            && s'.admitted + s'.waiting == s.admitted + s.waiting
            && |s'.running| - |s.running| == |s'.admitted| - |s.admitted| == |s.waiting| - |s'.waiting| >= 0
            && HandlesApart(s'.running, s'.pool, s'.nextHandle) && (TasksOnce(s) ==> TasksOnce(s'))
    decreases |s.waiting|
  {
    hide HandlesApart, TasksOnce;
    if Room(s) && s.waiting != [] {
      hide Obtained;
      AdmitHandles(s);
      if TasksOnce(s) {
        AdmitTasks(s);
      }
      AdmitsWhatFits(Admitted(s));
      Suffixes(s.waiting, 0);
      Associative(s.admitted, [s.waiting[0]], s.waiting[1..]);
    }
  }

  /** The handles that messages report as done, in order. */
  function Reported(msgs: seq<Message>): seq<Handle> {
    if msgs == [] then [] else Reported(msgs[..|msgs| - 1]) + Reports(msgs[|msgs| - 1])
  }

  function Reports(msg: Message): seq<Handle> {
    if msg.Done? then [msg.handle] else []
  }

  /** The handles among those reported on which `task` ran. */
  function RanOn(s: State, reported: seq<Handle>, task: TaskId): set<Handle> {
    set h | h in s.running && h in reported && s.running[h] == task
  }

  lemma ReportedStep(s: State, msgs: seq<Message>)
    requires msgs != []
    ensures var past, msg := Reported(msgs[..|msgs| - 1]), msgs[|msgs| - 1];
            && Reported(msgs) == past + Reports(msg)
            && (forall h :: h in Reported(msgs) <==> h in past || msg == Done(h))
            && (forall task, h | msg == Done(h) && h in s.running && h !in past ::
                  |RanOn(s, Reported(msgs), task)| == |RanOn(s, past, task)| + if s.running[h] == task then 1 else 0)
            && (forall task | msg.Other? || msg.handle !in s.running || msg.handle in past ::
                  RanOn(s, Reported(msgs), task) == RanOn(s, past, task))
  {
    var past, msg := Reported(msgs[..|msgs| - 1]), msgs[|msgs| - 1];
    assert Reported(msgs) == past + Reports(msg);
    forall task, h | msg == Done(h) && h in s.running && h !in past
      ensures |RanOn(s, Reported(msgs), task)| == |RanOn(s, past, task)| + if s.running[h] == task then 1 else 0
    {
      Resized(RanOn(s, past, task), RanOn(s, Reported(msgs), task), h);
    }
  }

  /** `CheckSocket` takes exactly the reported handles from the running ones, pools every reported one, and fulfils
      each task as often as handles reported ran it: once, as tasks run on one handle. Nothing else changes. */
  lemma {:induction false} FulfilsWhatIsDone(s: State, msgs: seq<Message>)
    ensures var s', reported := CompletedAll(s, msgs), Reported(msgs);
            && s' == s.(running := s'.running, pool := s.pool + reported, fulfilled := s'.fulfilled)
            && (forall h :: h in s'.running <==> h in s.running && h !in reported)
            && (forall h | h in s'.running :: s'.running[h] == s.running[h])
            && (forall task :: s'.fulfilled[task] == s.fulfilled[task] + |RanOn(s, reported, task)|)
  {
    if msgs != [] {
      hide RanOn, AfterMessage, Reported;
      FulfilsWhatIsDone(s, msgs[..|msgs| - 1]);
      ReportedStep(s, msgs);
      OneMessage(CompletedAll(s, msgs[..|msgs| - 1]), msgs[|msgs| - 1]);
      Associative(s.pool, Reported(msgs[..|msgs| - 1]), Reports(msgs[|msgs| - 1]));
    }
  }

  lemma OneMessage(s: State, msg: Message)
    ensures var s' := AfterMessage(s, msg);
            && s' == s.(running := s'.running, pool := s.pool + Reports(msg), fulfilled := s'.fulfilled)
            && (forall h :: h in s'.running <==> h in s.running && msg != Done(h))
            && (forall h | h in s'.running :: s'.running[h] == s.running[h])
            && forall task ::
                 var ran := msg.Done? && msg.handle in s.running && s.running[msg.handle] == task;
                 s'.fulfilled[task] == s.fulfilled[task] + if ran then 1 else 0
  {
  }

  lemma {:induction false} CheckKeepsTasks(s: State, msgs: seq<Message>)
    requires TasksOnce(s)
    ensures TasksOnce(CompletedAll(s, msgs))
  {
    hide TasksOnce;
    if msgs != [] {
      CheckKeepsTasks(s, msgs[..|msgs| - 1]);
      var past, msg := CompletedAll(s, msgs[..|msgs| - 1]), msgs[|msgs| - 1];
      if msg.Done? && msg.handle in past.running {
        CompleteTasks(past, msg.handle);
      } else {
        SameTasks(past, AfterMessage(past, msg));
      }
    }
  }

  /** So each task that ran on a reported handle has been fulfilled once, and no other. */
  lemma FulfilledOnce(s: State, msgs: seq<Message>)
    requires TasksOnce(s)
    ensures forall h | h in s.running && h in Reported(msgs) ::
              s.fulfilled[s.running[h]] == 0 && CompletedAll(s, msgs).fulfilled[s.running[h]] == 1
    ensures forall task | (forall h | h in s.running && h in Reported(msgs) :: s.running[h] != task) ::
              CompletedAll(s, msgs).fulfilled[task] == s.fulfilled[task]
  {
    FulfilsWhatIsDone(s, msgs);
    var reported := Reported(msgs);
    forall h | h in s.running && h in reported
      ensures RanOn(s, reported, s.running[h]) == {h} && Runs(s.running, s.running[h])
    {
    }
    forall task | forall h | h in s.running && h in reported :: s.running[h] != task
      ensures RanOn(s, reported, task) == {}
    {
    }
  }

  /** Handles stay apart when curl reports only what runs, each once. */
  lemma HandlesStayApart(s: State, msgs: seq<Message>)
    requires HandlesApart(s.running, s.pool, s.nextHandle)
    requires Distinct(Reported(msgs)) && forall h | h in Reported(msgs) :: h in s.running
    ensures var s' := CompletedAll(s, msgs); HandlesApart(s'.running, s'.pool, s'.nextHandle)
    ensures var s' := CompletedAll(s, msgs); |s'.running| + |s'.pool| == |s.running| + |s.pool|
  {
    hide Distinct;
    FulfilsWhatIsDone(s, msgs);
    hide CompletedAll, RanOn, Reported, TasksOnce;
    var reported, s' := Reported(msgs), CompletedAll(s, msgs);
    DistinctConcat(s.pool, reported);
    var done := set h | h in reported;
    DistinctSize(reported, done);
    assert s'.running.Keys == s.running.Keys - done;
  }

  lemma DistinctConcat(a: seq<Handle>, b: seq<Handle>)
    requires Distinct(a) && Distinct(b) && forall x | x in a :: x !in b
    ensures Distinct(a + b)
  {
    forall i, j | 0 <= i < j < |a + b|
      ensures (a + b)[i] != (a + b)[j]
    {
      if i < |a| <= j {
        assert a[i] in a && b[j - |a|] in b;
      }
    }
  }

  class CurlPool {
    var pool: seq<Handle>
    var nextHandle: Handle

    constructor ()
      ensures pool == [] && nextHandle == 0
    {
      pool, nextHandle := [], 0;
    }

    method Obtain() returns (handle: Handle)
      modifies this
      ensures old(pool) != [] ==> handle == old(pool)[0] && pool == old(pool)[1..] && nextHandle == old(nextHandle)
      ensures old(pool) == [] ==> handle == old(nextHandle) && pool == [] && nextHandle == old(nextHandle) + 1
    {
      if pool != [] {
        handle := pool[0];
        pool := pool[1..];
      } else {
        handle := nextHandle;
        nextHandle := nextHandle + 1;
      }
    }

    method Return(handle: Handle)
      modifies this
      ensures pool == old(pool) + [handle] && nextHandle == old(nextHandle)
    {
      pool := pool + [handle];
    }
  }

  class Downloader {
    const curlPool: CurlPool
    var waitingTask: seq<TaskId>
    var runningTasks: map<Handle, TaskId>
    var maxProcessingTasks: Int32
    var interrupted: bool
    ghost var sent: seq<TaskId>
    ghost var admitted: seq<TaskId>
    ghost var fulfilled: multiset<TaskId>

    ghost function View(): State
      reads this, curlPool
    {
      State(waitingTask, runningTasks, curlPool.pool, maxProcessingTasks, interrupted, {}, Dispatching,
            curlPool.nextHandle, sent, admitted, fulfilled)
    }

    constructor (curlPool: CurlPool, cap: Int32)
      ensures this.curlPool == curlPool
      ensures View() == State([], map[], curlPool.pool, cap, false, {}, Dispatching, curlPool.nextHandle, [], [],
                              multiset{})
    {
      this.curlPool, maxProcessingTasks := curlPool, cap;
      waitingTask, runningTasks, interrupted := [], map[], false;
      sent, admitted, fulfilled := [], [], multiset{};
    }

    /** Hands the first waiting task to curl, on a handle from the pool. */
    method AdmitOne()
      requires waitingTask != []
      modifies this, curlPool
      ensures View() == Admitted(old(View()))
      ensures waitingTask == old(waitingTask)[1..] && maxProcessingTasks == old(maxProcessingTasks)
    {
      var task := waitingTask[0];
      waitingTask := waitingTask[1..];
      var handle := curlPool.Obtain();
      runningTasks := runningTasks[handle := task];
      admitted := admitted + [task];
    }

    /** Admits waiting tasks while there is room. */
    method OnInterrupt()
      modifies this, curlPool
      ensures View() == AdmittedAll(old(View()))
    {
      hide AdmittedAll, Admitted, Limit;
      while (maxProcessingTasks == 0 || |runningTasks| < Limit(maxProcessingTasks)) && waitingTask != []
        invariant AdmittedAll(View()) == AdmittedAll(old(View()))
        decreases |waitingTask|
      {
        AdmitsOneMore(View());
        AdmitOne();
      }
      AdmitsOneMore(View());
    }

    /** Deals with what curl reports: fulfils what is done, pools its handle again, and asks for another look at what
        waits. */
    method CheckSocket(msgs: seq<Message>)
      modifies this, curlPool
      ensures View() == CompletedAll(old(View()), msgs).(pending := old(interrupted) || msgs != [])
    {
      hide CompletedAll;
      var hasMsg := false;
      NoMessages(View());
      var i := 0;
      while i < |msgs|
        invariant i <= |msgs| && hasMsg == (i > 0)
        invariant View() == CompletedAll(old(View()), msgs[..i])
      {
        hasMsg := true;
        OneMoreMessage(old(View()), msgs, i);
        match msgs[i] {
          case Done(handle) =>
            if handle in runningTasks {
              fulfilled := fulfilled + multiset{runningTasks[handle]};
              runningTasks := runningTasks - {handle};
            }
            curlPool.Return(handle);
          case Other =>
        }
        i := i + 1;
      }
      assert msgs[..i] == msgs;
      if hasMsg {
        interrupted := true;
      }
    }

    method SendDownloadTask(task: TaskId)
      modifies this
      ensures View() == old(View()).(waiting := old(waitingTask) + [task], sent := old(sent) + [task], pending := true)
    {
      waitingTask := waitingTask + [task];
      sent := sent + [task];
      interrupted := true;
    }
  }
}
