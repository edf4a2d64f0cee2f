/** `HThreadPool` as interleaved steps of worker threads, committing threads and one thread in
    `wait()`. A step is one access to the status, a counter, the queue or the thread list. The pool
    is started by the first `start` or `commit` and is neither stopped nor paused. Tasks are numbered
    in the order they were committed. */
module ThreadPool {
  import opened Common

  /** Where a worker is in its loop (hthreadpool.h:144-171) or in `delThread`. */
  datatype Worker =
    | Top                    // outside the mutexes, about to wait for a task
    | Awake                  // `wait_for` has returned: a task is there or the idle time is over
    | Claimed                // after `--idle_thread_num`
    | Popped(task: nat)      // after `tasks.pop()`, still holding task_mutex
    | Running(task: nat)
    | Finished               // the task has returned, `++idle_thread_num` is next
    | DelEnter | DelLocked   // in `delThread`, before and after `thread_mutex.lock()`
    | DelHalf                // between `--cur_thread_num` and `--idle_thread_num`
    | Scan(k: nat)           // looking at `threads[k]`
    | DelDone                // thread_mutex released, task_mutex still held
    | Gone

  /** Where a client goes on after `createThread`: in `commit`, to the push; in the loop of `start`,
      with `left` more threads to make, from where it returns to `commit` or to its caller. */
  datatype Next = ThenPush | ThenLoop(left: nat, commits: bool)

  /** Where a client is in `commit` or in `start`. */
  datatype Client =
    | Out
    | SeeStatus                           // the first line of `commit`
    | StartTest(k: int, commits: bool)    // `start(k)`, before and after its test
    | StartSet(k: int, commits: bool)
    | SeeIdle | SeeCur                    // the two reads of line 122
    | Create(next: Next)                  // in `createThread`, before its check
    | Spawned(next: Next, id: nat)        // the new thread runs, `addThread` is next
    | AddLocked(next: Next, id: nat)
    | AddHalf(next: Next, id: nat)        // between `++cur_thread_num` and `++idle_thread_num`
    | AddDone(next: Next, id: nat)
    | Push

  /** Where the waiting thread is: what it has read of the condition so far, or how it returned. */
  datatype Waiter =
    | Absent | Start | SawRunning | SawEmpty | SawIdle(i: int) | SawCur(c: int)
    | Returned(idleFirst: bool) | FoundStopped

  datatype Entry = Entry(id: nat, stopped: bool)

  datatype Who = W(id: nat) | C(id: nat)

  datatype Queue = Queue(tasks: seq<nat>, committed: nat, popped: nat, finished: set<nat>)

  datatype Counts = Counts(cur: int, idle: int)

  datatype Locks = Locks(task: Option<nat>, thread: Option<Who>)

  /** The history of the current `wait`: nobody has committed, started or retired since it was
      called; nobody has retired; and how many tasks had been committed by then. */
  datatype Call = Call(quiet: bool, steady: bool, mark: nat)

  datatype Pool = Pool(
    min: int, max: int, running: bool, q: Queue, n: Counts, locks: Locks,
    workers: seq<Worker>, clients: seq<Client>, list: seq<Entry>, waiter: Waiter, call: Call)

  datatype Action =
    | WorkerStep(i: nat)
    | ScanJoin(i: nat)       // the entry is stopped and its stop time has passed
    | CallCommit(c: nat) | CallStart(c: nat, k: int) | ClientStep(c: nat)
    | CallWait | WaitStep(idleFirst: bool)

  const NO_CALL := Call(false, false, 0)

  function Init(min: int, max: int, clients: nat): Pool
  {
    Pool(min, max, false, Queue([], 0, 0, {}), Counts(0, 0), Locks(None, None), [],
         seq(clients, i => Out), [], Absent, NO_CALL)
  }

  predicate HoldsTask(w: Worker) { !w.Top? && !w.Running? && !w.Finished? && !w.Gone? }

  predicate WorkerHoldsThread(w: Worker) { w.DelLocked? || w.DelHalf? || w.Scan? }

  predicate ClientHoldsThread(c: Client) { c.AddLocked? || c.AddHalf? || c.AddDone? }

  /** Between `--idle_thread_num` and `++idle_thread_num`. */
  predicate Busy(w: Worker) { w.Claimed? || w.Popped? || w.Running? || w.Finished? }

  predicate Retiring(w: Worker) { w.DelEnter? || w.DelLocked? || w.DelHalf? || w.Scan? || w.DelDone? }

  predicate Halfway(w: Worker) { w.DelHalf? }

  predicate HalfAdded(c: Client) { c.AddHalf? }

  /** Past the check of `createThread`, not yet counted. */
  predicate PastCheck(c: Client) { c.Spawned? || c.AddLocked? }

  predicate InWait(w: Waiter) { !w.Absent? && !w.Returned? && !w.FoundStopped? }

  predicate Enabled(s: Pool, a: Action)
  {
    match a
    case WorkerStep(i) =>
      i < |s.workers| &&
      (match s.workers[i]
       case Top => s.locks.task == None
       case DelEnter => s.locks.thread == None
       case Gone => false
       case _ => true)
    case ScanJoin(i) =>
      i < |s.workers| && s.workers[i].Scan? && s.workers[i].k < |s.list| && s.list[s.workers[i].k].stopped
    case CallCommit(c) => c < |s.clients| && s.clients[c].Out?
    case CallStart(c, _) => c < |s.clients| && s.clients[c].Out?
    case ClientStep(c) =>
      c < |s.clients| &&
      (match s.clients[c]
       case Out => false
       case Spawned(_, _) => s.locks.thread == None
       case Push => s.locks.task == None
       case _ => true)
    case CallWait => !InWait(s.waiter)
    case WaitStep(_) => InWait(s.waiter)
  }

  function Move(s: Pool, i: nat, w: Worker): Pool
    requires i < |s.workers|
  {
    s.(workers := s.workers[i := w])
  }

  function StepWorker(s: Pool, i: nat): Pool
    requires Enabled(s, WorkerStep(i))
  {
    match s.workers[i]
    case Top => Move(s, i, Awake).(locks := s.locks.(task := Some(i)))
    case Awake =>
      if s.q.tasks == [] then
        if s.n.cur > s.min then Move(s, i, DelEnter).(call := s.call.(quiet := false, steady := false))
        else Move(s, i, Top).(locks := s.locks.(task := None))
      else Move(s, i, Claimed).(n := s.n.(idle := s.n.idle - 1))
    case Claimed =>
      if s.q.tasks == [] then s  // `front()` of an empty queue; see TasksInOrder
      else Move(s, i, Popped(s.q.tasks[0])).(q := s.q.(tasks := s.q.tasks[1..], popped := s.q.popped + 1))
    case Popped(t) => Move(s, i, Running(t)).(locks := s.locks.(task := None))
    case Running(t) => Move(s, i, Finished).(q := s.q.(finished := s.q.finished + {t}))
    case Finished => Move(s, i, Top).(n := s.n.(idle := s.n.idle + 1))
    case DelEnter => Move(s, i, DelLocked).(locks := s.locks.(thread := Some(W(i))))
    case DelLocked => Move(s, i, DelHalf).(n := s.n.(cur := s.n.cur - 1))
    case DelHalf => Move(s, i, Scan(0)).(n := s.n.(idle := s.n.idle - 1))
    case Scan(k) =>
      if k < |s.list| then
        Move(s, i, Scan(k + 1)).(list := if s.list[k].id == i then s.list[k := Entry(i, true)] else s.list)
      else Move(s, i, DelDone).(locks := s.locks.(thread := None))
    case DelDone => Move(s, i, Gone).(locks := s.locks.(task := None))
    case Gone => s
  }

  function MoveClient(s: Pool, c: nat, p: Client): Pool
    requires c < |s.clients|
  {
    s.(clients := s.clients[c := p])
  }

  /** How many threads `start(k)` makes. */
  function StartCount(k: int, min: int, max: int): nat
  {
    var n := Min(Max(k, min), max);
    if n < 0 then 0 else n
  }

  function AfterStart(commits: bool): Client { if commits then SeeIdle else Out }

  function LoopNext(left: nat, commits: bool): Client
  {
    if left == 0 then AfterStart(commits) else Create(ThenLoop(left - 1, commits))
  }

  function AfterCreate(next: Next): Client
  {
    match next
    case ThenPush => Push
    case ThenLoop(left, commits) => LoopNext(left, commits)
  }

  function StepClient(s: Pool, c: nat): Pool
    requires Enabled(s, ClientStep(c))
  {
    match s.clients[c]
    case Out => s
    case SeeStatus => MoveClient(s, c, if s.running then SeeIdle else StartTest(0, true))
    case StartTest(k, commits) => MoveClient(s, c, if s.running then AfterStart(commits) else StartSet(k, commits))
    case StartSet(k, commits) => MoveClient(s, c, LoopNext(StartCount(k, s.min, s.max), commits)).(running := true)
    case SeeIdle => MoveClient(s, c, if s.n.idle == 0 then SeeCur else Push)
    case SeeCur => MoveClient(s, c, if s.n.cur < s.max then Create(ThenPush) else Push)
    case Create(p) =>
      if s.n.cur >= s.max then MoveClient(s, c, AfterCreate(p))
      else MoveClient(s, c, Spawned(p, |s.workers|)).(workers := s.workers + [Top])
    case Spawned(p, id) => MoveClient(s, c, AddLocked(p, id)).(locks := s.locks.(thread := Some(C(c))))
    case AddLocked(p, id) => MoveClient(s, c, AddHalf(p, id)).(n := s.n.(cur := s.n.cur + 1))
    case AddHalf(p, id) => MoveClient(s, c, AddDone(p, id)).(n := s.n.(idle := s.n.idle + 1))
    case AddDone(p, id) =>
      MoveClient(s, c, AfterCreate(p)).(list := s.list + [Entry(id, false)], locks := s.locks.(thread := None))
    case Push =>
      MoveClient(s, c, Out).(q := s.q.(tasks := s.q.tasks + [s.q.committed], committed := s.q.committed + 1))
  }

  function StepWaiter(s: Pool, idleFirst: bool): Waiter
  {
    match s.waiter
    case Start => if s.running then SawRunning else FoundStopped
    case SawRunning => if s.q.tasks == [] then SawEmpty else Start
    case SawEmpty => if idleFirst then SawIdle(s.n.idle) else SawCur(s.n.cur)
    case SawIdle(i) => if i == s.n.cur then Returned(true) else Start
    case SawCur(c) => if c == s.n.idle then Returned(false) else Start
    case w => w
  }

  /** Nobody is inside `delThread`. */
  predicate NoneRetiring(s: Pool) { forall i :: 0 <= i < |s.workers| ==> !Retiring(s.workers[i]) }

  /** Nobody is inside `commit`, `start` or `delThread`. */
  predicate Calm(s: Pool)
  {
    (forall c :: 0 <= c < |s.clients| ==> s.clients[c].Out?) && NoneRetiring(s)
  }

  function Apply(s: Pool, a: Action): Pool
    requires Enabled(s, a)
  {
    match a
    case WorkerStep(i) => StepWorker(s, i)
    case ScanJoin(i) =>
      var k := s.workers[i].k;
      s.(list := s.list[..k] + s.list[k + 1..])
    case CallCommit(c) => MoveClient(s, c, SeeStatus).(call := s.call.(quiet := false))
    case CallStart(c, k) => MoveClient(s, c, StartTest(k, false)).(call := s.call.(quiet := false))
    case ClientStep(c) => StepClient(s, c)
    case CallWait => s.(waiter := Start, call := Call(Calm(s), NoneRetiring(s), s.q.committed))
    case WaitStep(idleFirst) => s.(waiter := StepWaiter(s, idleFirst))
  }

  predicate Legal(s: Pool, run: seq<Action>)
    decreases |run|
  {
    run != [] ==> Enabled(s, run[0]) && Legal(Apply(s, run[0]), run[1..])
  }

  function Run(s: Pool, run: seq<Action>): Pool
    requires Legal(s, run)
    decreases |run|
  {
    if run == [] then s else Run(Apply(s, run[0]), run[1..])
  }

  // ---- invariants

  ghost predicate LockInv(s: Pool)
  {
    && (forall i :: 0 <= i < |s.workers| ==> (HoldsTask(s.workers[i]) <==> s.locks.task == Some(i)))
    && (forall i :: 0 <= i < |s.workers| ==> (WorkerHoldsThread(s.workers[i]) <==> s.locks.thread == Some(W(i))))
    && (forall c :: 0 <= c < |s.clients| ==> (ClientHoldsThread(s.clients[c]) <==> s.locks.thread == Some(C(c))))
    && (s.locks.task.Some? ==> s.locks.task.value < |s.workers|)
    && (s.locks.thread.Some? && s.locks.thread.value.W? ==> s.locks.thread.value.id < |s.workers|)
    && (s.locks.thread.Some? && s.locks.thread.value.C? ==> s.locks.thread.value.id < |s.clients|)
  }

  /** A worker moves only itself, and takes and releases the mutexes as its program point says. */
  lemma WorkerFrame(s: Pool, i: nat)
    requires Enabled(s, WorkerStep(i))
    ensures var s' := StepWorker(s, i);
            |s'.workers| == |s.workers| && s'.workers == s.workers[i := s'.workers[i]] && s'.clients == s.clients
    ensures var s', w, w' := StepWorker(s, i), s.workers[i], StepWorker(s, i).workers[i];
            && (HoldsTask(w') && !HoldsTask(w) ==> s.locks.task == None)
            && s'.locks.task == (if HoldsTask(w') && !HoldsTask(w) then Some(i)
                                 else if HoldsTask(w) && !HoldsTask(w') then None else s.locks.task)
            && (WorkerHoldsThread(w') && !WorkerHoldsThread(w) ==> s.locks.thread == None)
            && s'.locks.thread == (if WorkerHoldsThread(w') && !WorkerHoldsThread(w) then Some(W(i))
                                   else if WorkerHoldsThread(w) && !WorkerHoldsThread(w') then None else s.locks.thread)
  {
  }

  lemma WorkerKeepsLocks(s: Pool, i: nat)
    requires LockInv(s) && Enabled(s, WorkerStep(i))
    ensures LockInv(StepWorker(s, i))
  {
    WorkerFrame(s, i);
    hide StepWorker, HoldsTask, WorkerHoldsThread;
  }

  predicate HasId(c: Client) { c.Spawned? || ClientHoldsThread(c) }

  /** A client moves only itself; it makes a worker, takes and releases the thread mutex and enters its
      worker in the list as its program point says. */
  lemma ClientFrame(s: Pool, c: nat)
    requires Enabled(s, ClientStep(c))
    ensures var s', p, p' := StepClient(s, c), s.clients[c], StepClient(s, c).clients[c];
            && s'.clients == s.clients[c := p'] && s'.locks.task == s.locks.task
            && (ClientHoldsThread(p') && !ClientHoldsThread(p) ==> s.locks.thread == None)
            && s'.locks.thread == (if ClientHoldsThread(p') && !ClientHoldsThread(p) then Some(C(c))
                                   else if ClientHoldsThread(p) && !ClientHoldsThread(p') then None else s.locks.thread)
            && s'.workers == (if p'.Spawned? then s.workers + [Top] else s.workers)
            && s'.list == (if p.AddDone? then s.list + [Entry(p.id, false)] else s.list)
            && (HasId(p') ==> p'.id == if p'.Spawned? then |s.workers| else if HasId(p) then p.id else |s.workers|)
            && (ClientHoldsThread(p') ==> HasId(p))
            && (s'.q != s.q ==> s.locks.task == None)
  {
  }

  lemma ClientKeepsLocks(s: Pool, c: nat)
    requires LockInv(s) && Enabled(s, ClientStep(c))
    ensures LockInv(StepClient(s, c))
  {
    ClientFrame(s, c);
    hide StepClient, ClientHoldsThread;
  }

  /** The task a worker has popped and not yet finished. */
  function TaskOf(w: Worker): Option<nat>
  {
    match w
    case Popped(t) => Some(t)
    case Running(t) => Some(t)
    case _ => None
  }

  ghost predicate OnSome(ws: seq<Worker>, t: nat)
  {
    exists i :: 0 <= i < |ws| && TaskOf(ws[i]) == Some(t)
  }

  /** The queue holds the numbers from `popped` on. */
  predicate InOrder(s: Pool)
  {
    && s.q.popped <= s.q.committed
    && s.q.tasks == seq(s.q.committed - s.q.popped, k => s.q.popped + k)
    && (forall t :: t in s.q.finished ==> t < s.q.popped)
  }

  /** Every worker has a popped and unfinished task of its own. */
  predicate Owned(s: Pool)
  {
    && (forall i :: 0 <= i < |s.workers| && TaskOf(s.workers[i]).Some? ==>
          TaskOf(s.workers[i]).value < s.q.popped && TaskOf(s.workers[i]).value !in s.q.finished)
    && (forall i, j :: 0 <= i < j < |s.workers| && TaskOf(s.workers[i]).Some? ==>
          TaskOf(s.workers[i]) != TaskOf(s.workers[j]))
  }

  predicate ClaimFinds(s: Pool)
  {
    forall i :: 0 <= i < |s.workers| && s.workers[i].Claimed? ==> s.q.tasks != []
  }

  ghost predicate QueueInv(s: Pool)
  {
    && InOrder(s) && Owned(s) && ClaimFinds(s)
    && forall t: nat :: t < s.q.popped ==> t in s.q.finished || OnSome(s.workers, t)
  }

  /** A worker's step moves that worker only, and no client. */
  lemma WorkerMoves(s: Pool, i: nat)
    requires Enabled(s, WorkerStep(i))
    ensures var s' := StepWorker(s, i);
            s'.workers == s.workers[i := s'.workers[i]] && s'.clients == s.clients
  {
  }

  lemma OnSomeMove(ws: seq<Worker>, i: nat, w: Worker, t: nat)
    requires i < |ws| && OnSome(ws, t) && (TaskOf(ws[i]) == Some(t) ==> TaskOf(w) == Some(t))
    ensures OnSome(ws[i := w], t)
  {
    var j :| 0 <= j < |ws| && TaskOf(ws[j]) == Some(t);
    assert TaskOf(ws[i := w][j]) == Some(t);
  }

  /** What a worker's step does to the queue: it pops the front task, finishes its own, or
      leaves both alone. */
  lemma WorkerQueueEffect(s: Pool, i: nat)
    requires QueueInv(s) && Enabled(s, WorkerStep(i))
    ensures var s', w, w' := StepWorker(s, i), s.workers[i], StepWorker(s, i).workers[i];
            && (w'.Claimed? ==> s.q.tasks != [] && s'.q == s.q)
            && if w.Claimed? then
                 && s.q.tasks != [] && s.q.tasks[0] == s.q.popped
                 && s'.q == s.q.(tasks := s.q.tasks[1..], popped := s.q.popped + 1) && TaskOf(w') == Some(s.q.popped)
               else if w.Running? then
                 s'.q == s.q.(finished := s.q.finished + {w.task}) && TaskOf(w') == None
               else s'.q == s.q && TaskOf(w') == TaskOf(w)
  {
  }

  lemma WorkerKeepsTasks(s: Pool, i: nat)
    requires LockInv(s) && QueueInv(s) && Enabled(s, WorkerStep(i))
    ensures var s' := StepWorker(s, i);
            forall t: nat :: t < s'.q.popped ==> t in s'.q.finished || OnSome(s'.workers, t)
  {
    WorkerFrame(s, i);
    WorkerQueueEffect(s, i);
    var s' := StepWorker(s, i);
    hide StepWorker;
    forall t: nat | t < s'.q.popped ensures t in s'.q.finished || OnSome(s'.workers, t) {
      if t == s.q.popped {
        assert TaskOf(s'.workers[i]) == Some(t);
      } else if t !in s'.q.finished {
        OnSomeMove(s.workers, i, s'.workers[i], t);
      }
    }
  }

  lemma WorkerKeepsOrder(s: Pool, i: nat)
    requires QueueInv(s) && Enabled(s, WorkerStep(i))
    ensures InOrder(StepWorker(s, i))
  {
    WorkerQueueEffect(s, i);
    assert InOrder(s) && (s.workers[i].Running? ==> s.workers[i].task < s.q.popped) by {
      hide StepWorker, OnSome;
      assert TaskOf(s.workers[i]).Some? ==> TaskOf(s.workers[i]).value < s.q.popped;
    }
    hide StepWorker, QueueInv;
  }

  lemma WorkerKeepsOwners(s: Pool, i: nat)
    requires QueueInv(s) && Enabled(s, WorkerStep(i))
    ensures Owned(StepWorker(s, i))
  {
    WorkerQueueEffect(s, i);
    WorkerMoves(s, i);
    assert Owned(s) && forall t :: t in s.q.finished ==> t < s.q.popped;
    assert s.workers[i].Running? ==> TaskOf(s.workers[i]) == Some(s.workers[i].task);
    hide StepWorker, QueueInv, TaskOf;
  }

  lemma WorkerKeepsClaim(s: Pool, i: nat)
    requires LockInv(s) && QueueInv(s) && Enabled(s, WorkerStep(i))
    ensures ClaimFinds(StepWorker(s, i))
  {
    WorkerQueueEffect(s, i);
    WorkerMoves(s, i);
    assert ClaimFinds(s);
    assert forall j :: 0 <= j < |s.workers| && s.workers[j].Claimed? && s.workers[i].Claimed? ==> i == j;
    assert s.workers[i].Claimed? ==> !StepWorker(s, i).workers[i].Claimed?;
    hide StepWorker, QueueInv, LockInv;
  }

  lemma WorkerKeepsQueue(s: Pool, i: nat)
    requires LockInv(s) && QueueInv(s) && Enabled(s, WorkerStep(i))
    ensures QueueInv(StepWorker(s, i))
  {
    WorkerKeepsTasks(s, i);
    WorkerKeepsOrder(s, i);
    WorkerKeepsOwners(s, i);
    WorkerKeepsClaim(s, i);
    hide StepWorker, OnSome, InOrder, Owned, ClaimFinds;
  }

  lemma OnSomeAppend(ws: seq<Worker>, t: nat)
    requires OnSome(ws, t)
    ensures OnSome(ws + [Top], t)
  {
    var j :| 0 <= j < |ws| && TaskOf(ws[j]) == Some(t);
    assert TaskOf((ws + [Top])[j]) == Some(t);
  }

  lemma ClientQueueEffect(s: Pool, c: nat)
    requires Enabled(s, ClientStep(c))
    ensures var s' := StepClient(s, c);
            && (s'.workers == s.workers || s'.workers == s.workers + [Top])
            && (s'.q == s.q ||
                s'.q == s.q.(tasks := s.q.tasks + [s.q.committed], committed := s.q.committed + 1))
  {
  }

  lemma ClientKeepsQueue(s: Pool, c: nat)
    requires QueueInv(s) && Enabled(s, ClientStep(c))
    ensures QueueInv(StepClient(s, c))
  {
    var s' := StepClient(s, c);
    ClientQueueEffect(s, c);
    forall t: nat | t < s.q.popped && OnSome(s.workers, t) ensures OnSome(s'.workers, t) {
      OnSomeAppend(s.workers, t);
    }
    hide StepClient, OnSome;
  }

  predicate CountInv(s: Pool)
  {
    s.n.idle == s.n.cur - Tally(s.workers, Busy) - Tally(s.clients, HalfAdded) + Tally(s.workers, Halfway)
  }

  lemma ClaimSafe(s: Pool, i: nat)
    requires QueueInv(s) && i < |s.workers|
    ensures s.workers[i].Claimed? ==> s.q.tasks != []
  {
    hide InOrder, Owned, OnSome;
  }

  /** The idle and thread counts follow the worker's own place. */
  lemma WorkerCountEffect(s: Pool, i: nat)
    requires QueueInv(s) && Enabled(s, WorkerStep(i))
    ensures var s', w, w' := StepWorker(s, i), s.workers[i], StepWorker(s, i).workers[i];
            s'.n.idle - s'.n.cur + Flag(Busy(w')) - Flag(Halfway(w')) == s.n.idle - s.n.cur + Flag(Busy(w)) - Flag(Halfway(w))
  {
    ClaimSafe(s, i);
    hide QueueInv;
  }

  function Flag(b: bool): nat { if b then 1 else 0 }

  lemma WorkerKeepsCount(s: Pool, i: nat)
    requires CountInv(s) && QueueInv(s) && Enabled(s, WorkerStep(i))
    ensures CountInv(StepWorker(s, i))
  {
    WorkerMoves(s, i);
    WorkerCountEffect(s, i);
    var s' := StepWorker(s, i);
    hide StepWorker, QueueInv, Busy, Halfway, Tally;
    TallyUpdate(s.workers, i, s'.workers[i], Busy);
    TallyUpdate(s.workers, i, s'.workers[i], Halfway);
  }

  lemma ClientKeepsCount(s: Pool, c: nat)
    requires CountInv(s) && Enabled(s, ClientStep(c))
    ensures CountInv(StepClient(s, c))
  {
    var s' := StepClient(s, c);
    TallyUpdate(s.clients, c, s'.clients[c], HalfAdded);
    TallyAppend(s.workers, Top, Busy);
    TallyAppend(s.workers, Top, Halfway);
    assert s.clients[c := s.clients[c]] == s.clients;
  }

  /** The most threads that `clients` committing threads can make of a maximum of `max`. */
  function MaxThreads(max: int, clients: nat): nat
  {
    if max <= 0 || clients == 0 then 0 else max + clients - 1
  }

  /** The pool never counts more than `MaxThreads`, and a worker that has decided to retire still
      finds more than `min` threads. */
  predicate BoundInv(s: Pool)
  {
    && s.n.cur + Tally(s.clients, PastCheck) <= MaxThreads(s.max, |s.clients|)
    && (s.max <= 0 || s.clients == [] ==> s.workers == [] && s.n.cur == 0)
    && forall i :: 0 <= i < |s.workers| && (s.workers[i].DelEnter? || s.workers[i].DelLocked?) ==> s.n.cur > s.min
  }

  /** Only a worker that has decided to retire lowers the count, and it decides while there are more
      than `min`. */
  lemma WorkerBoundEffect(s: Pool, i: nat)
    requires Enabled(s, WorkerStep(i))
    ensures var s', w, w' := StepWorker(s, i), s.workers[i], StepWorker(s, i).workers[i];
            && s'.min == s.min && s'.max == s.max && s'.n.cur == s.n.cur - Flag(w.DelLocked?)
            && (w'.DelEnter? ==> s.n.cur > s.min) && (w'.DelLocked? ==> w.DelEnter?) && (w.DelLocked? ==> w'.DelHalf?)
  {
  }

  lemma WorkerKeepsBound(s: Pool, i: nat)
    requires LockInv(s) && BoundInv(s) && Enabled(s, WorkerStep(i))
    ensures BoundInv(StepWorker(s, i))
  {
    WorkerMoves(s, i);
    WorkerBoundEffect(s, i);
    assert forall j :: 0 <= j < |s.workers| && (s.workers[j].DelEnter? || s.workers[j].DelLocked?) && s.workers[i].DelLocked?
                       ==> j == i by {
      assert forall j :: 0 <= j < |s.workers| && (s.workers[j].DelEnter? || s.workers[j].DelLocked?) ==> HoldsTask(s.workers[j]);
    }
    hide StepWorker, LockInv, Tally;
  }

  lemma ClientKeepsBound(s: Pool, c: nat)
    requires BoundInv(s) && Enabled(s, ClientStep(c))
    ensures BoundInv(StepClient(s, c))
  {
    var s' := StepClient(s, c);
    TallyUpdate(s.clients, c, s'.clients[c], PastCheck);
    TallyBound(s'.clients, PastCheck);
    assert s.clients[c := s.clients[c]] == s.clients;
  }

  ghost predicate JoinInv(s: Pool)
  {
    && (forall k :: 0 <= k < |s.list| ==> s.list[k].id < |s.workers|)
    && (forall c :: 0 <= c < |s.clients| && HasId(s.clients[c]) ==> s.clients[c].id < |s.workers|)
    && (forall k :: 0 <= k < |s.list| && s.list[k].stopped ==>
          var w := s.workers[s.list[k].id]; w.Scan? || w.DelDone? || w.Gone?)
    && (forall i, k :: 0 <= i < |s.workers| && s.workers[i].Scan? && s.workers[i].k <= k < |s.list| && s.list[k].stopped ==>
          s.list[k].id != i)
  }

  lemma WorkerListEffect(s: Pool, i: nat)
    requires Enabled(s, WorkerStep(i))
    ensures var s', w, w' := StepWorker(s, i), s.workers[i], StepWorker(s, i).workers[i];
            && (w.Scan? || w.DelDone? || w.Gone? ==> w'.Scan? || w'.DelDone? || w'.Gone?)
            && (w.Scan? && w'.Scan? ==> w.k < |s.list| && w'.k == w.k + 1)
            && (w.Scan? || !w'.Scan? || w.DelHalf?)
            && s'.list == (if w.Scan? && w.k < |s.list| && s.list[w.k].id == i then s.list[w.k := Entry(i, true)]
                           else s.list)
  {
  }

  lemma WorkerKeepsJoin(s: Pool, i: nat)
    requires LockInv(s) && JoinInv(s) && Enabled(s, WorkerStep(i))
    ensures JoinInv(StepWorker(s, i))
  {
    WorkerFrame(s, i);
    WorkerListEffect(s, i);
    hide StepWorker;
  }

  lemma ScanKeepsJoin(s: Pool, i: nat)
    requires LockInv(s) && JoinInv(s) && Enabled(s, ScanJoin(i))
    ensures JoinInv(Apply(s, ScanJoin(i)))
  {
    var s' := Apply(s, ScanJoin(i));
    var k := s.workers[i].k;
    assert forall j :: 0 <= j < |s'.list| ==> s'.list[j] == if j < k then s.list[j] else s.list[j + 1];
  }

  lemma ClientKeepsJoin(s: Pool, c: nat)
    requires LockInv(s) && JoinInv(s) && Enabled(s, ClientStep(c))
    ensures JoinInv(StepClient(s, c))
  {
    ClientFrame(s, c);
    if s.clients[c].AddDone? {
      ScansUnderThread(s, c);
    }
    hide StepClient, LockInv;
  }

  /** While a client is in `addThread`, no worker scans the list. */
  lemma ScansUnderThread(s: Pool, c: nat)
    requires LockInv(s) && Enabled(s, ClientStep(c)) && s.clients[c].AddDone?
    ensures forall i :: 0 <= i < |s.workers| ==> !s.workers[i].Scan?
  {
    assert forall i :: 0 <= i < |s.workers| && s.workers[i].Scan? ==> WorkerHoldsThread(s.workers[i]);
  }

  ghost predicate NoneBusy(s: Pool)
  {
    forall i :: 0 <= i < |s.workers| ==> !Busy(s.workers[i])
  }

  ghost predicate QuietInv(s: Pool)
  {
    s.call.quiet ==>
      && Calm(s)
      && (s.waiter.SawEmpty? || s.waiter.SawIdle? || s.waiter.SawCur? || s.waiter.Returned? ==> s.q.tasks == [])
      && (s.waiter.SawIdle? && s.waiter.i == s.n.cur ==> NoneBusy(s))
      && (s.waiter.SawCur? ==> s.waiter.c == s.n.cur)
      && (s.waiter.Returned? ==> NoneBusy(s))
  }

  /** With no worker half deleted the idle count is at most the thread count; with no client half
      added either, they are equal exactly when no worker has a task. */
  lemma IdleMeansNoneBusy(s: Pool)
    requires CountInv(s) && forall i :: 0 <= i < |s.workers| ==> !Halfway(s.workers[i])
    ensures s.n.idle <= s.n.cur && (s.n.idle == s.n.cur ==> NoneBusy(s))
    ensures (forall c :: 0 <= c < |s.clients| ==> !HalfAdded(s.clients[c])) ==> (s.n.idle == s.n.cur <==> NoneBusy(s))
  {
    TallyZero(s.workers, Busy);
    TallyZero(s.workers, Halfway);
    TallyZero(s.clients, HalfAdded);
  }

  lemma WorkerKeepsQuiet(s: Pool, i: nat)
    requires QueueInv(s) && CountInv(s) && QuietInv(s) && Enabled(s, WorkerStep(i))
    ensures QuietInv(StepWorker(s, i))
  {
  }

  lemma WaiterKeepsQuiet(s: Pool, idleFirst: bool)
    requires QueueInv(s) && CountInv(s) && QuietInv(s) && Enabled(s, WaitStep(idleFirst))
    ensures QuietInv(Apply(s, WaitStep(idleFirst)))
  {
    if s.call.quiet {
      IdleMeansNoneBusy(s);
    }
  }

  // ---- waiting while others commit

  predicate FinishedBelow(s: Pool, mark: nat) { forall t: nat :: t < mark ==> t in s.q.finished }

  /** While nobody retires, the thread count does not fall; so an idle count that was read first and
      equals the thread count read after it was taken when no worker had a task. */
  predicate SteadyInv(s: Pool)
  {
    s.call.steady ==>
      && NoneRetiring(s) && s.call.mark <= s.q.committed
      && (s.waiter.SawEmpty? || s.waiter.SawIdle? || s.waiter.SawCur? || s.waiter.Returned? ==> s.call.mark <= s.q.popped)
      && (s.waiter.SawIdle? ==> s.waiter.i <= s.n.cur && (s.waiter.i == s.n.cur ==> FinishedBelow(s, s.call.mark)))
      && (s.waiter == Returned(true) ==> FinishedBelow(s, s.call.mark))
  }

  lemma NoneBusyMeansFinished(s: Pool)
    requires QueueInv(s) && NoneBusy(s)
    ensures FinishedBelow(s, s.q.popped)
  {
    forall i | 0 <= i < |s.workers| ensures TaskOf(s.workers[i]) == None {
      assert !Busy(s.workers[i]);
    }
  }

  /** A worker's step starts no retirement but by ending the steady period, keeps the thread count
      then, and takes nothing back. */
  lemma WorkerSteadyEffect(s: Pool, i: nat)
    requires QueueInv(s) && Enabled(s, WorkerStep(i))
    ensures var s' := StepWorker(s, i);
            && s'.waiter == s.waiter && s'.call.mark == s.call.mark && (s'.call.steady ==> s.call.steady)
            && s'.q.committed == s.q.committed && s.q.popped <= s'.q.popped && s.q.finished <= s'.q.finished
            && (s'.call.steady && !Retiring(s.workers[i]) ==> !Retiring(s'.workers[i]) && s'.n.cur == s.n.cur)
  {
    ClaimSafe(s, i);
    hide QueueInv;
  }

  lemma WorkerKeepsSteady(s: Pool, i: nat)
    requires QueueInv(s) && SteadyInv(s) && Enabled(s, WorkerStep(i))
    ensures SteadyInv(StepWorker(s, i))
  {
    WorkerSteadyEffect(s, i);
    WorkerMoves(s, i);
    hide StepWorker, QueueInv, Retiring;
  }

  lemma ClientKeepsSteady(s: Pool, c: nat)
    requires SteadyInv(s) && Enabled(s, ClientStep(c))
    ensures SteadyInv(StepClient(s, c))
  {
  }

  lemma WaiterKeepsSteady(s: Pool, idleFirst: bool)
    requires QueueInv(s) && CountInv(s) && SteadyInv(s) && Enabled(s, WaitStep(idleFirst))
    ensures SteadyInv(Apply(s, WaitStep(idleFirst)))
  {
    if s.call.steady {
      assert forall i :: 0 <= i < |s.workers| && Halfway(s.workers[i]) ==> Retiring(s.workers[i]);
      IdleMeansNoneBusy(s);
      if s.n.idle == s.n.cur {
        NoneBusyMeansFinished(s);
      }
      assert s.q.tasks == [] ==> s.q.popped == s.q.committed by { assert |s.q.tasks| == s.q.committed - s.q.popped; }
    }
    hide QueueInv, CountInv, Retiring;
  }

  // ---- somebody serves the queue

  predicate Live(w: Worker) { !w.DelHalf? && !w.Scan? && !w.DelDone? && !w.Gone? }

  predicate Serving(w: Worker) { !Retiring(w) && !w.Gone? }

  /** Before the first thread is counted, nothing has been committed. */
  predicate Unstarted(s: Pool)
  {
    && s.n.cur == 0 && s.q.committed == 0
    && (forall c :: 0 <= c < |s.clients| ==> !s.clients[c].Push? && !s.clients[c].AddHalf? && !s.clients[c].AddDone?)
    && (forall i :: 0 <= i < |s.workers| ==> s.workers[i].Top? || s.workers[i].Awake?)
  }

  /** The live workers are the counted threads and those about to be counted; with `min` and `max`
      at least 1, the count stays positive from the first thread on. */
  predicate ServeInv(s: Pool)
  {
    && Tally(s.workers, Live) == s.n.cur + Tally(s.clients, PastCheck)
    && (s.min >= 1 && s.max >= 1 ==> s.n.cur >= 1 || Unstarted(s))
    && (s.clients == [] ==> s.q.committed == 0)
    && (s.workers == [] ==> s.q.popped == 0)
  }

  lemma WorkerLiveEffect(s: Pool, i: nat)
    requires Enabled(s, WorkerStep(i))
    ensures var s', w, w' := StepWorker(s, i), s.workers[i], StepWorker(s, i).workers[i];
            && s'.n.cur - Flag(Live(w')) == s.n.cur - Flag(Live(w))
            && s'.n.cur >= s.n.cur - Flag(w.DelLocked?) && s'.min == s.min && s'.max == s.max
            && s'.q.committed == s.q.committed && s'.workers != []
            && (w.Top? || (w.Awake? && s.q.tasks == [] && s.n.cur <= s.min) ==>
                  s'.n.cur == s.n.cur && (w'.Top? || w'.Awake?))
  {
  }

  lemma WorkerKeepsServe(s: Pool, i: nat)
    requires QueueInv(s) && BoundInv(s) && ServeInv(s) && Enabled(s, WorkerStep(i))
    ensures ServeInv(StepWorker(s, i))
  {
    WorkerMoves(s, i);
    WorkerLiveEffect(s, i);
    var s' := StepWorker(s, i);
    assert s.q.committed == 0 ==> s.q.tasks == [] by { assert |s.q.tasks| == s.q.committed - s.q.popped; }
    assert s.workers[i].DelLocked? ==> s.n.cur > s.min;
    hide StepWorker, QueueInv, BoundInv, Live, Tally;
    TallyUpdate(s.workers, i, s'.workers[i], Live);
  }

  /** While nothing is started the idle count is 0, so a committing thread goes on to make a thread. */
  lemma UnstartedIdle(s: Pool)
    requires CountInv(s) && Unstarted(s)
    ensures s.n.idle == 0
  {
    TallyZero(s.workers, Busy);
    TallyZero(s.workers, Halfway);
    TallyZero(s.clients, HalfAdded);
  }

  /** A client's step adds a worker or counts one, as its place says; while nothing is started it
      does not get to push before a thread is counted. */
  lemma ClientLiveEffect(s: Pool, c: nat)
    requires Enabled(s, ClientStep(c))
    ensures var s', p, p' := StepClient(s, c), s.clients[c], StepClient(s, c).clients[c];
            && s'.clients == s.clients[c := p'] && s'.min == s.min && s'.max == s.max
            && s'.n.cur == s.n.cur + Flag(p.AddLocked?)
            && (if p.Create? && s.n.cur < s.max then
                  s'.workers == s.workers + [Top] && PastCheck(p') && !PastCheck(p)
                else
                  s'.workers == s.workers && Flag(PastCheck(p')) + Flag(p.AddLocked?) == Flag(PastCheck(p)))
            && s'.q.popped == s.q.popped
            && (s.n.cur == 0 && s.n.idle == 0 && s.max >= 1 && !p.Push? && !p.AddHalf? && !p.AddDone? && !p.AddLocked? ==>
                  s'.q.committed == s.q.committed && !p'.Push? && !p'.AddHalf? && !p'.AddDone?)
  {
  }

  lemma ClientKeepsLive(s: Pool, c: nat)
    requires ServeInv(s) && Enabled(s, ClientStep(c))
    ensures var s' := StepClient(s, c); Tally(s'.workers, Live) == s'.n.cur + Tally(s'.clients, PastCheck)
  {
    ClientLiveEffect(s, c);
    var s' := StepClient(s, c);
    hide StepClient, Tally, PastCheck, Unstarted;
    TallyUpdate(s.clients, c, s'.clients[c], PastCheck);
    TallyAppend(s.workers, Top, Live);
  }

  lemma ClientKeepsServe(s: Pool, c: nat)
    requires CountInv(s) && ServeInv(s) && Enabled(s, ClientStep(c))
    ensures ServeInv(StepClient(s, c))
  {
    ClientLiveEffect(s, c);
    ClientKeepsLive(s, c);
    hide StepClient, CountInv, Tally, PastCheck;
    if Unstarted(s) {
      UnstartedIdle(s);
    }
  }

  // ---- what a `wait` has seen

  /** Not past the test of `start` or the status test of `commit` while the pool is stopped. */
  predicate BeforeStart(c: Client) { c.Out? || c.SeeStatus? || c.StartTest? || c.StartSet? }

  /** Nothing happens before the pool is started; and once `wait` has seen the queue empty, every task
      committed before its call has been taken. */
  predicate WaitInv(s: Pool)
  {
    && (!s.running ==> s.q.committed == 0 && s.workers == [] && s.n.cur == 0
                       && forall c :: 0 <= c < |s.clients| ==> BeforeStart(s.clients[c]))
    && s.call.mark <= s.q.committed
    && (s.waiter.SawEmpty? || s.waiter.SawIdle? || s.waiter.SawCur? || s.waiter.Returned? ==> s.call.mark <= s.q.popped)
    && (s.waiter.FoundStopped? ==> s.call.mark == 0)
  }

  lemma WorkerKeepsWait(s: Pool, i: nat)
    requires QueueInv(s) && WaitInv(s) && Enabled(s, WorkerStep(i))
    ensures WaitInv(StepWorker(s, i))
  {
    WorkerSteadyEffect(s, i);
    WorkerMoves(s, i);
    assert s.running && StepWorker(s, i).running;
    hide StepWorker, QueueInv;
  }

  lemma ClientKeepsWait(s: Pool, c: nat)
    requires WaitInv(s) && Enabled(s, ClientStep(c))
    ensures WaitInv(StepClient(s, c))
  {
  }

  lemma WaiterKeepsWait(s: Pool, idleFirst: bool)
    requires QueueInv(s) && WaitInv(s) && Enabled(s, WaitStep(idleFirst))
    ensures WaitInv(Apply(s, WaitStep(idleFirst)))
  {
    assert s.q.tasks == [] ==> s.q.popped == s.q.committed by { assert |s.q.tasks| == s.q.committed - s.q.popped; }
    hide QueueInv;
  }

  // ---- one committing thread and no room between the limits

  /** The thread count that one client sees when `start` makes all the threads there can be. */
  predicate FixedAt(c: Client, running: bool, cur: int, max: int, committed: nat)
  {
    match c
    case StartSet(_, _) => !running && cur == 0
    case Create(ThenLoop(left, _)) => running && cur + left + 1 == max && committed == 0
    case Spawned(ThenLoop(left, _), _) => running && cur + left + 1 == max && committed == 0
    case AddLocked(ThenLoop(left, _), _) => running && cur + left + 1 == max && committed == 0
    case AddHalf(ThenLoop(left, _), _) => running && cur + left == max && committed == 0
    case AddDone(ThenLoop(left, _), _) => running && cur + left == max && committed == 0
    case SeeIdle => running && cur == max
    case SeeCur => running && cur == max
    case Push => running && cur == max
    case Out => cur == if running then max else 0
    case SeeStatus => cur == if running then max else 0
    case StartTest(_, _) => cur == if running then max else 0
    case _ => false
  }

  predicate Fixed(s: Pool) { |s.clients| == 1 && s.min >= s.max >= 1 }

  /** From the first commit on the count is `max`, nobody retires, and `wait` is exact. */
  predicate FixedInv(s: Pool)
  {
    Fixed(s) ==>
      && NoneRetiring(s)
      && FixedAt(s.clients[0], s.running, s.n.cur, s.max, s.q.committed)
      && (s.call.mark > 0 ==>
            && (s.waiter.SawIdle? && s.waiter.i == s.max ==> FinishedBelow(s, s.call.mark))
            && (s.waiter.SawCur? ==> s.waiter.c == s.max)
            && (s.waiter.Returned? ==> FinishedBelow(s, s.call.mark)))
  }

  /** With the limits fixed no worker retires and the count stays. */
  lemma FixedWorkerEffect(s: Pool, i: nat)
    requires QueueInv(s) && BoundInv(s) && FixedInv(s) && Fixed(s) && Enabled(s, WorkerStep(i))
    ensures var s' := StepWorker(s, i);
            && s'.n.cur == s.n.cur && !Retiring(s'.workers[i]) && s'.running == s.running
            && s'.min == s.min && s'.max == s.max && s'.waiter == s.waiter && s'.call.mark == s.call.mark
            && s'.q.committed == s.q.committed && s.q.finished <= s'.q.finished
  {
    assert !Retiring(s.workers[i]) && s.n.cur <= s.max <= s.min;
    hide OnSome, TaskOf, Tally, BoundInv, FixedAt;
  }

  lemma WorkerKeepsFixed(s: Pool, i: nat)
    requires QueueInv(s) && BoundInv(s) && FixedInv(s) && Enabled(s, WorkerStep(i))
    ensures FixedInv(StepWorker(s, i))
  {
    WorkerMoves(s, i);
    if Fixed(s) {
      FixedWorkerEffect(s, i);
    } else {
      assert !Fixed(StepWorker(s, i)) by { hide QueueInv, BoundInv; }
    }
    hide StepWorker, QueueInv, BoundInv, FixedAt, Retiring;
  }

  lemma ClientKeepsFixed(s: Pool, c: nat)
    requires FixedInv(s) && WaitInv(s) && Enabled(s, ClientStep(c))
    ensures FixedInv(StepClient(s, c))
  {
  }

  lemma WaiterKeepsFixed(s: Pool, idleFirst: bool)
    requires QueueInv(s) && CountInv(s) && WaitInv(s) && FixedInv(s) && Enabled(s, WaitStep(idleFirst))
    ensures FixedInv(Apply(s, WaitStep(idleFirst)))
  {
    if Fixed(s) && s.call.mark > 0 {
      assert forall i :: 0 <= i < |s.workers| && Halfway(s.workers[i]) ==> Retiring(s.workers[i]);
      IdleMeansNoneBusy(s);
      if s.n.idle == s.n.cur {
        NoneBusyMeansFinished(s);
      }
    }
    hide QueueInv, CountInv, Retiring, NoneBusy;
  }

  // ---- all runs

  ghost predicate Inv(s: Pool)
  {
    && LockInv(s) && QueueInv(s) && CountInv(s) && BoundInv(s) && JoinInv(s) && QuietInv(s)
    && SteadyInv(s) && ServeInv(s) && WaitInv(s) && FixedInv(s)
  }

  lemma InitInv(min: int, max: int, clients: nat)
    ensures Inv(Init(min, max, clients))
  {
    TallyZero(seq(clients, i => Out), HalfAdded);
    TallyZero(seq(clients, i => Out), PastCheck);
  }

  /** A call moves a client that was outside to the start of its call. */
  lemma CallEffect(s: Pool, c: nat, a: Action)
    requires Enabled(s, a) && (a == CallCommit(c) || (a.CallStart? && a.c == c))
    ensures var s', p := Apply(s, a), Apply(s, a).clients[c];
            && s.clients[c].Out? && (p.SeeStatus? || p.StartTest?)
            && s' == s.(clients := s.clients[c := p], call := s.call.(quiet := false))
  {
  }

  lemma CallKeepsCounts(s: Pool, c: nat, a: Action)
    requires Inv(s) && Enabled(s, a) && (a == CallCommit(c) || (a.CallStart? && a.c == c))
    ensures var s' := Apply(s, a); CountInv(s') && BoundInv(s') && ServeInv(s')
  {
    CallEffect(s, c, a);
    var p := Apply(s, a).clients[c];
    hide Apply, Tally, LockInv, QueueInv, JoinInv, QuietInv, SteadyInv, WaitInv, FixedInv;
    TallyUpdate(s.clients, c, p, HalfAdded);
    TallyUpdate(s.clients, c, p, PastCheck);
  }

  lemma CallKeepsViews(s: Pool, c: nat, a: Action)
    requires Inv(s) && Enabled(s, a) && (a == CallCommit(c) || (a.CallStart? && a.c == c))
    ensures var s' := Apply(s, a); LockInv(s') && JoinInv(s') && QuietInv(s')
  {
    CallEffect(s, c, a);
    hide Apply, QueueInv, CountInv, BoundInv, ServeInv, SteadyInv, WaitInv, FixedInv;
  }

  lemma CallKeepsWaits(s: Pool, c: nat, a: Action)
    requires Inv(s) && Enabled(s, a) && (a == CallCommit(c) || (a.CallStart? && a.c == c))
    ensures var s' := Apply(s, a); QueueInv(s') && SteadyInv(s') && WaitInv(s') && FixedInv(s')
  {
    CallEffect(s, c, a);
    hide Apply, OnSome, LockInv, CountInv, BoundInv, JoinInv, QuietInv, ServeInv;
  }

  lemma CallKeepsInv(s: Pool, c: nat, a: Action)
    requires Inv(s) && Enabled(s, a) && (a == CallCommit(c) || (a.CallStart? && a.c == c))
    ensures Inv(Apply(s, a))
  {
    CallKeepsCounts(s, c, a);
    CallKeepsViews(s, c, a);
    CallKeepsWaits(s, c, a);
    hide *;
    InvParts(Apply(s, a));
  }

  lemma InvParts(s: Pool)
    requires LockInv(s) && QueueInv(s) && CountInv(s) && BoundInv(s) && JoinInv(s) && QuietInv(s)
    requires SteadyInv(s) && ServeInv(s) && WaitInv(s) && FixedInv(s)
    ensures Inv(s)
  {
  }

  lemma ClientKeepsRest(s: Pool, c: nat)
    requires QuietInv(s) && Enabled(s, ClientStep(c))
    ensures QuietInv(StepClient(s, c)) && !s.call.quiet
  {
  }

  lemma ScanKeepsRest(s: Pool, i: nat)
    requires Inv(s) && Enabled(s, ScanJoin(i))
    ensures var s' := Apply(s, ScanJoin(i));
            LockInv(s') && QueueInv(s') && CountInv(s') && BoundInv(s') && QuietInv(s') && SteadyInv(s') && ServeInv(s')
            && WaitInv(s') && FixedInv(s')
  {
    hide JoinInv, Tally, OnSome;
  }

  lemma CallWaitKeepsInv(s: Pool)
    requires Inv(s) && Enabled(s, CallWait)
    ensures Inv(Apply(s, CallWait))
  {
    hide Tally, OnSome;
  }

  lemma WaiterKeepsRest(s: Pool, idleFirst: bool)
    requires Inv(s) && Enabled(s, WaitStep(idleFirst))
    ensures var s' := Apply(s, WaitStep(idleFirst));
            LockInv(s') && QueueInv(s') && CountInv(s') && BoundInv(s') && JoinInv(s') && ServeInv(s')
  {
    hide QuietInv, SteadyInv, WaitInv, FixedInv, StepWaiter, Tally, OnSome;
  }

  lemma StepKeepsInv(s: Pool, a: Action)
    requires Inv(s) && Enabled(s, a)
    ensures Inv(Apply(s, a))
  {
    hide StepWorker, StepClient, LockInv, QueueInv, CountInv, BoundInv, JoinInv, QuietInv, SteadyInv, ServeInv,
         WaitInv, FixedInv, Enabled, Move, MoveClient;
    match a
    case WorkerStep(i) =>
      WorkerKeepsLocks(s, i);
      WorkerKeepsQueue(s, i);
      WorkerKeepsCount(s, i);
      WorkerKeepsBound(s, i);
      WorkerKeepsJoin(s, i);
      WorkerKeepsQuiet(s, i);
      WorkerKeepsSteady(s, i);
      WorkerKeepsServe(s, i);
      WorkerKeepsWait(s, i);
      WorkerKeepsFixed(s, i);
    case ScanJoin(i) =>
      ScanKeepsJoin(s, i);
      ScanKeepsRest(s, i);
    case CallCommit(c) => CallKeepsInv(s, c, a);
    case CallStart(c, _) => CallKeepsInv(s, c, a);
    case ClientStep(c) =>
      ClientKeepsLocks(s, c);
      ClientKeepsQueue(s, c);
      ClientKeepsCount(s, c);
      ClientKeepsBound(s, c);
      ClientKeepsJoin(s, c);
      ClientKeepsRest(s, c);
      ClientKeepsSteady(s, c);
      ClientKeepsServe(s, c);
      ClientKeepsWait(s, c);
      ClientKeepsFixed(s, c);
    case CallWait => CallWaitKeepsInv(s);
    case WaitStep(idleFirst) =>
      WaiterKeepsQuiet(s, idleFirst);
      WaiterKeepsSteady(s, idleFirst);
      WaiterKeepsWait(s, idleFirst);
      WaiterKeepsFixed(s, idleFirst);
      WaiterKeepsRest(s, idleFirst);
  }

  lemma {:induction false} RunKeepsInv(s: Pool, run: seq<Action>)
    requires Inv(s) && Legal(s, run)
    ensures Inv(Run(s, run))
    decreases |run|
  {
    if run != [] {
      StepKeepsInv(s, run[0]);
      RunKeepsInv(Apply(s, run[0]), run[1..]);
    }
  }

  /** The idle count in every interleaving; and therefore exactly when it equals the thread count. */
  lemma IdleCount(min: int, max: int, clients: nat, run: seq<Action>)
    requires Legal(Init(min, max, clients), run)
    ensures var s := Run(Init(min, max, clients), run);
            && s.n.idle == s.n.cur - Tally(s.workers, Busy) - Tally(s.clients, HalfAdded) + Tally(s.workers, Halfway)
            && (s.n.idle == s.n.cur <==> Tally(s.workers, Busy) + Tally(s.clients, HalfAdded) == Tally(s.workers, Halfway))
  {
    InitInv(min, max, clients);
    RunKeepsInv(Init(min, max, clients), run);
  }

  /** A `wait` that returns, with nobody committing, starting or retiring since it was called,
      returns only after every committed task has finished. */
  lemma WaitMeansDone(min: int, max: int, clients: nat, run: seq<Action>)
    requires Legal(Init(min, max, clients), run)
    requires var s := Run(Init(min, max, clients), run); s.waiter.Returned? && s.call.quiet
    ensures var s := Run(Init(min, max, clients), run);
            s.q.tasks == [] && forall t: nat :: t < s.q.committed <==> t in s.q.finished
  {
    InitInv(min, max, clients);
    RunKeepsInv(Init(min, max, clients), run);
    var s := Run(Init(min, max, clients), run);
    assert |s.q.tasks| == 0;
    forall i | 0 <= i < |s.workers| ensures TaskOf(s.workers[i]) == None {
      assert !Busy(s.workers[i]);
    }
  }

  /** A `wait` that returns after reading the idle count before the thread count, with nobody
      retiring since it was called: every task committed before the call has finished, however many
      others are being committed. */
  lemma WaitBesideCommits(min: int, max: int, clients: nat, run: seq<Action>)
    requires Legal(Init(min, max, clients), run)
    requires var s := Run(Init(min, max, clients), run); s.waiter == Returned(true) && s.call.steady
    ensures var s := Run(Init(min, max, clients), run); forall t: nat :: t < s.call.mark ==> t in s.q.finished
  {
    InitInv(min, max, clients);
    RunKeepsInv(Init(min, max, clients), run);
    hide Legal, Run, LockInv, QueueInv, CountInv, BoundInv, JoinInv, QuietInv, ServeInv;
  }

  /** Tasks leave the queue in the order they were committed, and each popped one is finished or on
      exactly one worker; `front()` is never called on an empty queue. */
  lemma TasksInOrder(min: int, max: int, clients: nat, run: seq<Action>)
    requires Legal(Init(min, max, clients), run)
    ensures var s := Run(Init(min, max, clients), run);
            && s.q.popped <= s.q.committed
            && s.q.tasks == seq(s.q.committed - s.q.popped, k => s.q.popped + k)
            && (forall t: nat :: t < s.q.popped <==> t in s.q.finished || OnSome(s.workers, t))
            && (forall i, j :: 0 <= i < j < |s.workers| && TaskOf(s.workers[i]).Some? ==>
                  TaskOf(s.workers[i]) != TaskOf(s.workers[j]))
            && (forall i :: 0 <= i < |s.workers| && s.workers[i].Claimed? ==> s.q.tasks != [])
  {
    InitInv(min, max, clients);
    RunKeepsInv(Init(min, max, clients), run);
    hide Legal, Run, LockInv, CountInv, BoundInv, JoinInv, QuietInv, SteadyInv, ServeInv, WaitInv, FixedInv;
  }

  /** Retirement never takes the pool below `min`, and with one committing thread it never holds
      more than `max` threads; each further committing thread can add one. */
  lemma ThreadBounds(min: int, max: int, clients: nat, run: seq<Action>, i: nat)
    requires Legal(Init(min, max, clients), run)
    ensures var s := Run(Init(min, max, clients), run);
            && s.n.cur <= MaxThreads(max, clients)
            && (Enabled(s, WorkerStep(i)) && StepWorker(s, i).n.cur < s.n.cur ==> StepWorker(s, i).n.cur >= min)
  {
    InitInv(min, max, clients);
    RunKeepsInv(Init(min, max, clients), run);
    LimitsFixed(Init(min, max, clients), run);
  }

  lemma {:induction false} LimitsFixed(s: Pool, run: seq<Action>)
    requires Legal(s, run)
    ensures var s' := Run(s, run); s'.min == s.min && s'.max == s.max && |s'.clients| == |s.clients|
    decreases |run|
  {
    if run != [] {
      LimitsFixed(Apply(s, run[0]), run[1..]);
    }
  }

  /** `delThread` joins only a thread that has released both mutexes, never itself. */
  lemma JoinSafe(min: int, max: int, clients: nat, run: seq<Action>, i: nat)
    requires Legal(Init(min, max, clients), run)
    requires Enabled(Run(Init(min, max, clients), run), ScanJoin(i))
    ensures var s := Run(Init(min, max, clients), run);
            var target := s.list[s.workers[i].k].id;
            target != i && target < |s.workers| && s.workers[target].Gone?
  {
    InitInv(min, max, clients);
    RunKeepsInv(Init(min, max, clients), run);
  }
}
