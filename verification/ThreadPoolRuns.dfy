/** Runs of the thread pool, and the exact conditions under which its counts, its queue and `wait()`
    keep what they seem to promise. */
module ThreadPoolRuns {
  import opened Common
  import opened ThreadPool

  // ---- building runs

  lemma {:induction false} RunSnoc(s: Pool, run: seq<Action>, a: Action)
    requires Legal(s, run) && Enabled(Run(s, run), a)
    ensures Legal(s, run + [a]) && Run(s, run + [a]) == Apply(Run(s, run), a)
    decreases |run|
  {
    if run == [] {
      assert run + [a] == [a];
      assert Legal(s, [a]) && Run(s, [a]) == Run(Apply(s, a), []);
    } else {
      assert (run + [a])[1..] == run[1..] + [a];
      RunSnoc(Apply(s, run[0]), run[1..], a);
    }
  }

  lemma Then(s: Pool, run: seq<Action>, a: Action) returns (run': seq<Action>)
    requires Legal(s, run) && Enabled(Run(s, run), a)
    ensures Legal(s, run') && Run(s, run') == Apply(Run(s, run), a)
  {
    RunSnoc(s, run, a);
    run' := run + [a];
  }

  /** A client that is past the checks makes its thread. */
  lemma CreateAt(s: Pool, run: seq<Action>, c: nat) returns (run': seq<Action>)
    requires Legal(s, run)
    requires var p := Run(s, run); c < |p.clients| && p.clients[c].Create? && p.n.cur < p.max
    ensures Legal(s, run')
    ensures var p := Run(s, run);
            Run(s, run') == p.(clients := p.clients[c := Spawned(p.clients[c].next, |p.workers|)],
                               workers := p.workers + [Top])
  {
    hide Legal, Run;
    run' := Then(s, run, ClientStep(c));
  }

  /** The new thread is counted. */
  lemma CountOne(s: Pool, run: seq<Action>, c: nat) returns (run': seq<Action>)
    requires Legal(s, run)
    requires var p := Run(s, run); c < |p.clients| && p.clients[c].Spawned? && p.locks.thread == None
    ensures Legal(s, run')
    ensures var p := Run(s, run);
            Run(s, run') == p.(clients := p.clients[c := AfterCreate(p.clients[c].next)],
                               n := Counts(p.n.cur + 1, p.n.idle + 1),
                               list := p.list + [Entry(p.clients[c].id, false)])
  {
    hide Legal, Run, AfterCreate;
    run' := Then(s, run, ClientStep(c));
    run' := Then(s, run', ClientStep(c));
    run' := Then(s, run', ClientStep(c));
    run' := Then(s, run', ClientStep(c));
  }

  /** A call of `start(k)` that finds the pool stopped. */
  lemma OpenStart(s: Pool, run: seq<Action>, c: nat, k: int) returns (run': seq<Action>)
    requires Legal(s, run)
    requires var p := Run(s, run); c < |p.clients| && p.clients[c].Out? && !p.running
    ensures Legal(s, run')
    ensures var p := Run(s, run);
            Run(s, run') == p.(clients := p.clients[c := StartSet(k, false)], call := p.call.(quiet := false))
  {
    hide Legal, Run;
    run' := Then(s, run, CallStart(c, k));
    run' := Then(s, run', ClientStep(c));
  }

  /** It sets the status and enters its loop. */
  lemma EnterLoop(s: Pool, run: seq<Action>, c: nat) returns (run': seq<Action>)
    requires Legal(s, run)
    requires var p := Run(s, run); c < |p.clients| && p.clients[c].StartSet?
    ensures Legal(s, run')
    ensures var p := Run(s, run); var at := p.clients[c];
            Run(s, run') == p.(clients := p.clients[c := LoopNext(StartCount(at.k, p.min, p.max), at.commits)], running := true)
  {
    hide Legal, Run, StartCount, LoopNext;
    run' := Then(s, run, ClientStep(c));
  }

  /** `q` is `p` with `m` more threads, all counted and at the top of their loop, and client `c` at
      `at`. */
  predicate Filled(p: Pool, q: Pool, c: nat, m: nat, at: Client)
    requires c < |p.clients|
  {
    && q == p.(clients := p.clients[c := at], n := Counts(p.n.cur + m, p.n.idle + m), workers := q.workers, list := q.list)
    && |q.workers| == |p.workers| + m && |q.list| == |p.list| + m
    && (forall i :: 0 <= i < |p.workers| ==> q.workers[i] == p.workers[i])
    && (forall i :: |p.workers| <= i < |q.workers| ==> q.workers[i] == Top)
    && (forall i :: 0 <= i < |p.list| ==> q.list[i] == p.list[i])
    && (forall i :: |p.list| <= i < |q.list| ==> q.list[i] == Entry(|p.workers| + i - |p.list|, false))
  }

  lemma FilledFacts(p: Pool, q: Pool, c: nat, m: nat, at: Client)
    requires c < |p.clients| && Filled(p, q, c, m, at)
    ensures c < |q.clients| && q.clients == p.clients[c := at] && q.clients[c] == at
    ensures q.n == Counts(p.n.cur + m, p.n.idle + m) && q.max == p.max && q.locks == p.locks
  {
  }

  lemma FilledOnce(p: Pool, q: Pool, r: Pool, c: nat, m: nat, at: Client, next: Client)
    requires c < |p.clients| && Filled(p, q, c, m, at) && c < |q.clients|
    requires r == q.(clients := p.clients[c := next], n := Counts(q.n.cur + 1, q.n.idle + 1),
                     workers := q.workers + [Top], list := q.list + [Entry(|q.workers|, false)])
    ensures Filled(p, r, c, m + 1, next)
  {
  }

  /** One round of the loop of `start`. */
  lemma FillRound(s: Pool, before: seq<Action>, p: Pool, c: nat, left: nat, m: nat) returns (run: seq<Action>)
    requires Legal(s, before) && m <= left && c < |p.clients|
    requires Filled(p, Run(s, before), c, m, Create(ThenLoop(left - m, false)))
    requires p.locks.thread == None && p.n.cur + m < p.max
    ensures Legal(s, run) && Filled(p, Run(s, run), c, m + 1, LoopNext(left - m, false))
  {
    var q, at := Run(s, before), Create(ThenLoop(left - m, false));
    hide Legal, Run, Filled, LoopNext;
    FilledFacts(p, q, c, m, at);
    run := CreateAt(s, before, c);
    run := CountOne(s, run, c);
    assert q.clients[c := Spawned(at.next, |q.workers|)][c := LoopNext(left - m, false)] == p.clients[c := LoopNext(left - m, false)];
    FilledOnce(p, q, Run(s, run), c, m, at, LoopNext(left - m, false));
  }

  lemma FilledNone(p: Pool, c: nat)
    requires c < |p.clients|
    ensures Filled(p, p, c, 0, p.clients[c])
  {
    assert p.clients[c := p.clients[c]] == p.clients;
  }

  /** `m` rounds of the loop of `start`. */
  lemma {:induction false} FillLoop(s: Pool, before: seq<Action>, c: nat, left: nat, m: nat) returns (run: seq<Action>)
    requires Legal(s, before) && m <= left + 1
    requires var p := Run(s, before);
             && c < |p.clients| && p.clients[c] == Create(ThenLoop(left, false)) && p.locks.thread == None
             && p.n.cur + m <= p.max
    ensures Legal(s, run)
    ensures Filled(Run(s, before), Run(s, run), c, m, LoopNext(left + 1 - m, false))
  {
    hide Legal, Run, Filled;
    if m == 0 {
      run := before;
      FilledNone(Run(s, before), c);
    } else {
      run := FillLoop(s, before, c, left, m - 1);
      run := FillRound(s, run, Run(s, before), c, left, m - 1);
    }
  }

  /** Nothing but `k` counted threads, all at the top of their loop. */
  predicate Ready(s: Pool, min: int, max: int, clients: nat, k: nat)
  {
    && s == Pool(min, max, true, Queue([], 0, 0, {}), Counts(k, k), Locks(None, None), s.workers, seq(clients, i => Out),
                 s.list, Absent, NO_CALL)
    && |s.workers| == |s.list| == k
    && forall i :: 0 <= i < k ==> s.workers[i] == Top && s.list[i] == Entry(i, false)
  }

  /** One client starts the pool. */
  lemma StartUp(min: int, max: int, clients: nat, k: int) returns (run: seq<Action>)
    requires clients >= 1 && StartCount(k, min, max) >= 1
    ensures Legal(Init(min, max, clients), run)
    ensures Ready(Run(Init(min, max, clients), run), min, max, clients, StartCount(k, min, max))
  {
    var s, n := Init(min, max, clients), StartCount(k, min, max);
    run := [];
    assert Legal(s, run) && Run(s, run) == s && n <= max;
    hide Legal, Run, StartCount;
    run := OpenStart(s, run, 0, k);
    run := EnterLoop(s, run, 0);
    var p := Run(s, run);
    run := FillLoop(s, run, 0, n - 1, n);
    assert p.clients[0 := Out] == s.clients;
  }

  /** How many threads client `p` has still to try to make in its loop. */
  function Left(p: Client): nat
  {
    match p
    case Create(ThenLoop(left, _)) => left + 1
    case Spawned(ThenLoop(left, _), _) => left
    case AddLocked(ThenLoop(left, _), _) => left
    case AddHalf(ThenLoop(left, _), _) => left
    case AddDone(ThenLoop(left, _), _) => left
    case _ => 0
  }

  predicate IsTry(s: Pool, a: Action, c: nat)
    requires c < |s.clients|
  {
    a == ClientStep(c) && s.clients[c].Create? && s.clients[c].next.ThenLoop?
  }

  /** How often client `c` calls `createThread` in the loop of `start` over a run. */
  function Tries(s: Pool, run: seq<Action>, c: nat): nat
    requires Legal(s, run) && c < |s.clients|
    decreases |run|
  {
    if run == [] then 0
    else
      ClientsStay(s, run[0]);
      (if IsTry(s, run[0], c) then 1 else 0) + Tries(Apply(s, run[0]), run[1..], c)
  }

  lemma ClientsStay(s: Pool, a: Action)
    requires Enabled(s, a)
    ensures |Apply(s, a).clients| == |s.clients|
  {
  }

  lemma TryStep(s: Pool, a: Action, c: nat)
    requires Enabled(s, a) && c < |s.clients| && s.running && !s.clients[c].StartSet?
    ensures var s' := Apply(s, a);
            && |s'.clients| == |s.clients| && s'.running && !s'.clients[c].StartSet?
            && Left(s'.clients[c]) + (if IsTry(s, a, c) then 1 else 0) == Left(s.clients[c])
  {
  }

  lemma {:induction false} TriesRun(s: Pool, run: seq<Action>, c: nat)
    requires Legal(s, run) && c < |s.clients| && s.running && !s.clients[c].StartSet?
    ensures |Run(s, run).clients| == |s.clients|
    ensures Left(Run(s, run).clients[c]) + Tries(s, run, c) == Left(s.clients[c])
    decreases |run|
  {
    hide Left, IsTry, Apply, Enabled;
    if run != [] {
      TryStep(s, run[0], c);
      TriesRun(Apply(s, run[0]), run[1..], c);
    }
  }

  /** Whatever the other threads do, once `start(k)` has set the status its loop calls `createThread`
      `k` times, but no fewer than the minimum and no more than the maximum, though calls fail. */
  lemma StartTriesAll(s: Pool, c: nat, k: int, run: seq<Action>)
    requires c < |s.clients| && s.clients[c].StartSet? && s.clients[c].k == k
    requires Legal(Apply(s, ClientStep(c)), run)
    ensures var s1 := Apply(s, ClientStep(c));
            var wanted := if k < s.min then s.min else k;
            var tries := if wanted > s.max then s.max else wanted;
            && |Run(s1, run).clients| == |s.clients| == |s1.clients|
            && Tries(s1, run, c) + Left(Run(s1, run).clients[c]) == if tries < 0 then 0 else tries
  {
    TriesRun(Apply(s, ClientStep(c)), run, c);
    hide Legal, Run;
  }

  /** How far client 0 has come in a call `start(k)` that nothing else interrupts. */
  predicate Starting(s: Pool, k: int)
  {
    var made, all := |s.workers|, StartCount(k, s.min, s.max);
    && s.clients != []
    && match s.clients[0]
       case StartTest(j, commits) => !commits && j == k && !s.running && made == 0 && s.n == Counts(0, 0)
       case StartSet(j, commits) => !commits && j == k && made == 0 && s.n == Counts(0, 0)
       case Create(ThenLoop(left, commits)) => !commits && s.running && made + 1 + left == all && s.n == Counts(made, made)
       case Spawned(ThenLoop(left, commits), _) =>
         !commits && s.running && made > 0 && made + left == all && s.n == Counts(made - 1, made - 1)
       case AddLocked(ThenLoop(left, commits), _) =>
         !commits && s.running && made > 0 && made + left == all && s.n == Counts(made - 1, made - 1)
       case AddHalf(ThenLoop(left, commits), _) =>
         !commits && s.running && made > 0 && made + left == all && s.n == Counts(made, made - 1)
       case AddDone(ThenLoop(left, commits), _) =>
         !commits && s.running && made > 0 && made + left == all && s.n == Counts(made, made)
       case Out => s.running && made == all && s.n == Counts(made, made)
       case _ => false
  }

  lemma StartingStep(s: Pool, k: int)
    requires Starting(s, k) && Enabled(s, ClientStep(0))
    ensures Starting(StepClient(s, 0), k) && StepClient(s, 0).min == s.min && StepClient(s, 0).max == s.max
  {
  }

  lemma {:induction false} StartingRun(s: Pool, k: int, run: seq<Action>)
    requires Starting(s, k) && Legal(s, run) && forall i :: 0 <= i < |run| ==> run[i] == ClientStep(0)
    ensures Starting(Run(s, run), k) && Run(s, run).min == s.min && Run(s, run).max == s.max
    decreases |run|
  {
    hide Starting, StepClient, Enabled;
    if run != [] {
      assert run[0] == ClientStep(0);
      StartingStep(s, k);
      StartingRun(StepClient(s, 0), k, run[1..]);
    }
  }

  /** A call `start(k)` of a fresh pool that nothing else interrupts makes `k` threads, but no fewer
      than the minimum, no more than the maximum, and none when that is negative. */
  lemma StartMakesThreads(min: int, max: int, clients: nat, k: int, steps: seq<Action>)
    requires clients >= 1 && (forall i :: 0 <= i < |steps| ==> steps[i] == ClientStep(0))
    requires Legal(Init(min, max, clients), [CallStart(0, k)] + steps)
    requires var p := Run(Init(min, max, clients), [CallStart(0, k)] + steps); p.clients != [] && p.clients[0].Out?
    ensures var p := Run(Init(min, max, clients), [CallStart(0, k)] + steps);
            var wanted := if k < min then min else k;
            var made := if wanted > max then max else wanted;
            p.running && |p.workers| == (if made < 0 then 0 else made) && p.n == Counts(|p.workers|, |p.workers|)
  {
    var s, run := Init(min, max, clients), [CallStart(0, k)] + steps;
    assert run[0] == CallStart(0, k) && run[1..] == steps;
    var s1 := Apply(s, CallStart(0, k));
    assert Starting(s1, k);
    StartingRun(s1, k, steps);
    assert Run(s, run) == Run(s1, steps);
    hide Legal, Run;
  }

  /** A commit while a thread is idle. */
  lemma CommitQuick(s: Pool, run: seq<Action>, c: nat) returns (run': seq<Action>)
    requires Legal(s, run)
    requires var p := Run(s, run);
             c < |p.clients| && p.clients[c].Out? && p.running && p.n.idle != 0 && p.locks.task == None
    ensures Legal(s, run')
    ensures var p := Run(s, run);
            Run(s, run') == p.(q := p.q.(tasks := p.q.tasks + [p.q.committed], committed := p.q.committed + 1),
                               call := p.call.(quiet := false))
  {
    var p := Run(s, run);
    hide Legal, Run;
    run' := ReachPush(s, run, c);
    run' := Then(s, run', ClientStep(c));
    assert p.clients[c := Push][c := Out] == p.clients;
  }

  /** A commit up to the moment before its push, while a thread is idle. */
  lemma ReachPush(s: Pool, run: seq<Action>, c: nat) returns (run': seq<Action>)
    requires Legal(s, run)
    requires var p := Run(s, run); c < |p.clients| && p.clients[c].Out? && p.running && p.n.idle != 0
    ensures Legal(s, run')
    ensures var p := Run(s, run);
            Run(s, run') == p.(clients := p.clients[c := Push], call := p.call.(quiet := false))
  {
    hide Legal, Run;
    run' := Then(s, run, CallCommit(c));
    run' := Then(s, run', ClientStep(c));
    run' := Then(s, run', ClientStep(c));
  }

  /** A commit that finds no idle thread makes one. */
  lemma CommitCreates(s: Pool, run: seq<Action>, c: nat) returns (run': seq<Action>)
    requires Legal(s, run)
    requires var p := Run(s, run);
             c < |p.clients| && p.clients[c].Out? && p.running && p.n.idle == 0 && p.n.cur < p.max
    ensures Legal(s, run')
    ensures var p := Run(s, run);
            Run(s, run') == p.(clients := p.clients[c := Spawned(ThenPush, |p.workers|)], workers := p.workers + [Top],
                               call := p.call.(quiet := false))
  {
    hide Legal, Run;
    run' := Then(s, run, CallCommit(c));
    run' := Then(s, run', ClientStep(c));
    run' := Then(s, run', ClientStep(c));
    run' := Then(s, run', ClientStep(c));
    run' := CreateAt(s, run', c);
  }

  /** A worker takes the only queued task. */
  lemma TakeTask(s: Pool, run: seq<Action>, i: nat, t: nat) returns (run': seq<Action>)
    requires Legal(s, run)
    requires var p := Run(s, run);
             i < |p.workers| && p.workers[i] == Top && p.q.tasks == [t] && p.locks.task == None
    ensures Legal(s, run')
    ensures var p := Run(s, run);
            Run(s, run') == p.(workers := p.workers[i := Running(t)], n := p.n.(idle := p.n.idle - 1),
                               q := p.q.(tasks := [], popped := p.q.popped + 1))
  {
    hide Legal, Run;
    run' := Then(s, run, WorkerStep(i));
    run' := Then(s, run', WorkerStep(i));
    run' := Then(s, run', WorkerStep(i));
    run' := Then(s, run', WorkerStep(i));
  }

  /** An idle worker retires up to the point between its two decrements. */
  lemma RetireHalfway(s: Pool, run: seq<Action>, i: nat) returns (run': seq<Action>)
    requires Legal(s, run)
    requires var p := Run(s, run);
             && i < |p.workers| && p.workers[i] == Top && p.q.tasks == [] && p.n.cur > p.min
             && p.locks == Locks(None, None)
    ensures Legal(s, run')
    ensures var p := Run(s, run);
            Run(s, run') == p.(workers := p.workers[i := DelHalf], n := p.n.(cur := p.n.cur - 1),
                               locks := Locks(Some(i), Some(W(i))), call := p.call.(quiet := false, steady := false))
  {
    hide Legal, Run;
    run' := Then(s, run, WorkerStep(i));
    run' := Then(s, run', WorkerStep(i));
    run' := Then(s, run', WorkerStep(i));
    run' := Then(s, run', WorkerStep(i));
  }

  /** The only worker leaves `delThread`, marking its own entry on the way. */
  lemma RetireRest(s: Pool, run: seq<Action>) returns (run': seq<Action>)
    requires Legal(s, run)
    requires var p := Run(s, run); p.workers == [DelHalf] && p.list == [Entry(0, false)]
    ensures Legal(s, run')
    ensures var p := Run(s, run);
            Run(s, run') == p.(workers := [Gone], n := p.n.(idle := p.n.idle - 1), list := [Entry(0, true)],
                               locks := Locks(None, None))
  {
    hide Legal, Run;
    run' := Then(s, run, WorkerStep(0));
    run' := Then(s, run', WorkerStep(0));
    run' := Then(s, run', WorkerStep(0));
    run' := Then(s, run', WorkerStep(0));
  }

  /** `wait` from its call to its return, with nothing else going on. */
  lemma WaitReturns(s: Pool, run: seq<Action>, idleFirst: bool) returns (run': seq<Action>)
    requires Legal(s, run)
    requires var p := Run(s, run); !InWait(p.waiter) && p.running && p.q.tasks == [] && p.n.idle == p.n.cur
    ensures Legal(s, run')
    ensures var p := Run(s, run);
            Run(s, run') == p.(waiter := Returned(idleFirst), call := Call(Calm(p), NoneRetiring(p), p.q.committed))
  {
    hide Legal, Run, Calm, NoneRetiring;
    run' := Then(s, run, CallWait);
    run' := Then(s, run', WaitStep(idleFirst));
    run' := Then(s, run', WaitStep(idleFirst));
    run' := Then(s, run', WaitStep(idleFirst));
    run' := Then(s, run', WaitStep(idleFirst));
  }

  /** `wait` finds the queue empty and reads the thread count. */
  lemma ReadCountFirst(s: Pool, run: seq<Action>) returns (run': seq<Action>)
    requires Legal(s, run)
    requires var p := Run(s, run); !InWait(p.waiter) && p.running && p.q.tasks == []
    ensures Legal(s, run')
    ensures var p := Run(s, run);
            Run(s, run') == p.(waiter := SawCur(p.n.cur), call := Call(Calm(p), NoneRetiring(p), p.q.committed))
  {
    hide Legal, Run, Calm, NoneRetiring;
    run' := Then(s, run, CallWait);
    run' := Then(s, run', WaitStep(false));
    run' := Then(s, run', WaitStep(false));
    run' := Then(s, run', WaitStep(false));
  }

  // ---- the most threads

  /** Clients before `k` are at `at`, the others at `before`, and nothing is counted or locked. */
  predicate Lined(s: Pool, k: nat, before: Client, at: Client)
  {
    && k <= |s.clients| && s.n.cur == 0 && s.locks == Locks(None, None)
    && forall c :: 0 <= c < |s.clients| ==> s.clients[c] == if c < k then at else before
  }

  /** The first `k` clients pass the test of `start` while the pool is stopped. */
  lemma {:induction false} TestEach(min: int, max: int, clients: nat, k: nat) returns (run: seq<Action>)
    requires k <= clients
    ensures var s := Init(min, max, clients);
            && Legal(s, run) && var q := Run(s, run);
            Lined(q, k, Out, StartSet(max, false)) && !q.running && q.min == min && q.max == max && |q.clients| == clients
  {
    var s := Init(min, max, clients);
    if k == 0 {
      run := [];
    } else {
      run := TestEach(min, max, clients, k - 1);
      hide Legal, Run;
      run := OpenStart(s, run, k - 1, max);
    }
  }

  /** All clients enter their loops. */
  lemma {:induction false} EnterEach(min: int, max: int, clients: nat, k: nat) returns (run: seq<Action>)
    requires k <= clients && max >= 1
    ensures var s := Init(min, max, clients);
            && Legal(s, run) && var q := Run(s, run);
            Lined(q, k, StartSet(max, false), Create(ThenLoop(max - 1, false))) && q.min == min && q.max == max
            && |q.clients| == clients
  {
    var s := Init(min, max, clients);
    if k == 0 {
      run := TestEach(min, max, clients, clients);
    } else {
      run := EnterEach(min, max, clients, k - 1);
      assert LoopNext(StartCount(max, min, max), false) == Create(ThenLoop(max - 1, false));
      hide Legal, Run;
      run := EnterLoop(s, run, k - 1);
    }
  }

  /** All clients are at or past the check of `createThread`, the first `k` past it. */
  predicate Passing(s: Pool, k: nat, cur: int)
  {
    && k <= |s.clients| && s.n.cur == cur && s.locks.thread == None
    && forall c :: 0 <= c < |s.clients| ==> if c < k then s.clients[c].Spawned? else s.clients[c].Create?
  }

  lemma {:induction false} PassEach(s: Pool, before: seq<Action>, k: nat) returns (run: seq<Action>)
    requires Legal(s, before)
    requires var p := Run(s, before); k <= |p.clients| && Passing(p, 0, p.n.cur) && p.n.cur < p.max
    ensures Legal(s, run)
    ensures var p, q := Run(s, before), Run(s, run); Passing(q, k, p.n.cur) && |q.clients| == |p.clients| && q.max == p.max
  {
    if k == 0 {
      run := before;
    } else {
      run := PassEach(s, before, k - 1);
      hide Legal, Run;
      run := CreateAt(s, run, k - 1);
    }
  }

  /** The first `k` clients have a thread to count. */
  predicate Counting(s: Pool, k: nat, cur: int)
  {
    && k <= |s.clients| && s.n.cur == cur && s.locks.thread == None
    && forall c :: 0 <= c < k ==> s.clients[c].Spawned?
  }

  lemma {:induction false} CountEach(s: Pool, before: seq<Action>, k: nat, cur: int) returns (run: seq<Action>)
    requires Legal(s, before) && Counting(Run(s, before), k, cur)
    ensures Legal(s, run) && Run(s, run).n.cur == cur + k
    decreases k
  {
    if k == 0 {
      run := before;
    } else {
      hide Legal, Run, AfterCreate;
      run := CountOne(s, before, k - 1);
      run := CountEach(s, run, k - 1, cur + 1);
    }
  }

  /** The bound is reached when all clients call `start` at the same time: each passes its test before
      any of them has set the status; then one makes all but one of `max` threads, and all pass the
      check of `createThread` before any of them is counted. */
  lemma MaxReached(min: int, max: int, clients: nat) returns (run: seq<Action>)
    ensures Legal(Init(min, max, clients), run) && Run(Init(min, max, clients), run).n.cur == MaxThreads(max, clients)
  {
    var s := Init(min, max, clients);
    if max <= 0 || clients == 0 {
      run := [];
    } else {
      run := EnterEach(min, max, clients, clients);
      hide Legal, Run;
      run := FillLoop(s, run, 0, max - 1, max - 1);
      run := PassEach(s, run, clients);
      run := CountEach(s, run, clients, max - 1);
    }
  }

  /** More than `max` threads are counted in some run exactly when threads can be made at all and
      at least two threads call. */
  lemma ExceedsMaxExactly(min: int, max: int, clients: nat)
    ensures (exists run :: Legal(Init(min, max, clients), run) && Run(Init(min, max, clients), run).n.cur > Max(max, 0))
            <==> max >= 1 && clients >= 2
  {
    var best := MaxReached(min, max, clients);
    forall run | Legal(Init(min, max, clients), run)
      ensures Run(Init(min, max, clients), run).n.cur <= MaxThreads(max, clients)
    {
      ThreadBounds(min, max, clients, run, 0);
    }
    hide Legal, Run;
  }

  // ---- queued tasks and the threads that serve them

  lemma {:induction false} TwoOf<T>(s: seq<T>, p: T -> bool)
    requires Tally(s, p) >= 2
    ensures exists i, j :: 0 <= i < j < |s| && p(s[i]) && p(s[j])
  {
    if p(s[0]) {
      TallyZero(s[1..], p);
      var j :| 0 <= j < |s[1..]| && p(s[1..][j]);
      assert p(s[0]) && p(s[j + 1]);
    } else {
      TwoOf(s[1..], p);
      var i, j :| 0 <= i < j < |s[1..]| && p(s[1..][i]) && p(s[1..][j]);
      assert p(s[i + 1]) && p(s[j + 1]);
    }
  }

  lemma SomeoneServes(s: Pool)
    requires LockInv(s) && BoundInv(s) && ServeInv(s) && s.min >= 1 && s.n.cur >= 1
    ensures exists i :: 0 <= i < |s.workers| && Serving(s.workers[i])
  {
    TallyZero(s.workers, Live);
    var i :| 0 <= i < |s.workers| && Live(s.workers[i]);
    if !Serving(s.workers[i]) {
      assert s.workers[i].DelEnter? || s.workers[i].DelLocked?;
      TwoOf(s.workers, Live);
      var j, k :| 0 <= j < k < |s.workers| && Live(s.workers[j]) && Live(s.workers[k]);
      var other := if j == i then k else j;
      assert HoldsTask(s.workers[i]);
      assert HoldsTask(s.workers[other]) ==> other == i;
      assert Serving(s.workers[other]);
    }
  }

  /** With `min` and `max` at least 1, as soon as a task has been committed there is always a worker
      that neither has retired nor is retiring. */
  lemma NoTaskStranded(min: int, max: int, clients: nat, run: seq<Action>)
    requires min >= 1 && max >= 1 && Legal(Init(min, max, clients), run)
    requires Run(Init(min, max, clients), run).q.committed > 0
    ensures var s := Run(Init(min, max, clients), run); exists i :: 0 <= i < |s.workers| && Serving(s.workers[i])
  {
    InitInv(min, max, clients);
    RunKeepsInv(Init(min, max, clients), run);
    LimitsFixed(Init(min, max, clients), run);
    hide Legal, Run, LockInv, QueueInv, CountInv, BoundInv, JoinInv, QuietInv, SteadyInv, Tally;
    SomeoneServes(Run(Init(min, max, clients), run));
  }

  /** A task is queued, no client is in a call, and every worker is gone. */
  predicate Stranded(s: Pool)
  {
    && s.q.tasks != []
    && (forall c :: 0 <= c < |s.clients| ==> s.clients[c].Out?)
    && (forall i :: 0 <= i < |s.workers| ==> s.workers[i].Gone?)
  }

  /** The committing thread sees an idle worker, the worker retires, and then the task is pushed. */
  lemma StrandByRetiring(min: int, max: int, clients: nat) returns (run: seq<Action>)
    requires min <= 0 && max >= 1 && clients >= 1
    ensures Legal(Init(min, max, clients), run) && Stranded(Run(Init(min, max, clients), run))
    ensures var p := Run(Init(min, max, clients), run);
            p == Pool(min, max, true, Queue([0], 1, 0, {}), Counts(0, 0), Locks(None, None), [Gone], seq(clients, i => Out),
                      [Entry(0, true)], Absent, Call(false, false, 0))
  {
    var s := Init(min, max, clients);
    assert StartCount(1, min, max) == 1;
    run := StartUp(min, max, clients, 1);
    var p := Run(s, run);
    assert p.workers == [Top] && p.list == [Entry(0, false)];
    hide Legal, Run;
    run := ReachPush(s, run, 0);
    run := RetireHalfway(s, run, 0);
    run := RetireRest(s, run);
    run := Then(s, run, ClientStep(0));
    assert p.clients[0 := Push][0 := Out] == p.clients;
  }

  /** A first commit that starts the pool, where no threads are allowed. */
  lemma StartOfNone(min: int, max: int, clients: nat) returns (run: seq<Action>)
    requires max <= 0 && clients >= 1
    ensures Legal(Init(min, max, clients), run)
    ensures var s := Init(min, max, clients);
            Run(s, run) == s.(clients := s.clients[0 := SeeIdle], running := true)
  {
    var s := Init(min, max, clients);
    run := [];
    assert Legal(s, run) && Run(s, run) == s;
    assert LoopNext(StartCount(0, min, max), true) == SeeIdle;
    hide Legal, Run, StartCount;
    run := Then(s, run, CallCommit(0));
    run := Then(s, run, ClientStep(0));
    run := Then(s, run, ClientStep(0));
    run := EnterLoop(s, run, 0);
  }

  /** With no threads allowed a commit only queues its task. */
  lemma StrandWithoutThreads(min: int, max: int, clients: nat) returns (run: seq<Action>)
    requires max <= 0 && clients >= 1
    ensures Legal(Init(min, max, clients), run) && Stranded(Run(Init(min, max, clients), run))
  {
    var s := Init(min, max, clients);
    run := StartOfNone(min, max, clients);
    hide Legal, Run;
    run := Then(s, run, ClientStep(0));
    run := Then(s, run, ClientStep(0));
    run := Then(s, run, ClientStep(0));
  }

  /** A committed task can be left with no worker and nobody about to make one exactly when `min`
      or `max` is not positive. */
  lemma StrandedExactly(min: int, max: int, clients: nat)
    ensures (exists run :: Legal(Init(min, max, clients), run) && Stranded(Run(Init(min, max, clients), run)))
            <==> clients >= 1 && (min <= 0 || max <= 0)
  {
    if clients >= 1 && max <= 0 {
      var run := StrandWithoutThreads(min, max, clients);
    } else if clients >= 1 && min <= 0 {
      var run := StrandByRetiring(min, max, clients);
    } else {
      forall run | Legal(Init(min, max, clients), run) ensures !Stranded(Run(Init(min, max, clients), run)) {
        NeverStranded(min, max, clients, run);
      }
    }
  }

  lemma NeverStranded(min: int, max: int, clients: nat, run: seq<Action>)
    requires Legal(Init(min, max, clients), run) && (clients == 0 || (min >= 1 && max >= 1))
    ensures !Stranded(Run(Init(min, max, clients), run))
  {
    var s := Run(Init(min, max, clients), run);
    InitInv(min, max, clients);
    RunKeepsInv(Init(min, max, clients), run);
    LimitsFixed(Init(min, max, clients), run);
    if s.q.tasks != [] {
      assert |s.q.tasks| == s.q.committed - s.q.popped;
      assert clients == 0 ==> s.clients == [];
      NoTaskStranded(min, max, clients, run);
    }
  }

  // ---- every committed task gets finished

  predicate WorkersOnly(run: seq<Action>) { forall i :: 0 <= i < |run| ==> run[i].WorkerStep? }

  predicate AllOut(s: Pool) { forall c :: 0 <= c < |s.clients| ==> s.clients[c].Out? }

  /** How far a worker is from the next task, or from being gone; `n` is the length of the list. */
  function Rank(w: Worker, n: nat): nat
  {
    match w
    case Popped(_) => n + 20
    case Running(_) => n + 19
    case Finished => n + 18
    case Top => n + 17
    case Awake => n + 16
    case Claimed => n + 15
    case DelEnter => n + 8
    case DelLocked => n + 7
    case DelHalf => n + 6
    case Scan(k) => 2 + Max(n - k, 0)
    case DelDone => 1
    case Gone => 0
  }

  function Ranks(ws: seq<Worker>, n: nat): nat
  {
    if ws == [] then 0 else Rank(ws[0], n) + Ranks(ws[1..], n)
  }

  lemma {:induction false} RanksUpdate(ws: seq<Worker>, i: nat, w: Worker, n: nat)
    requires i < |ws|
    ensures Ranks(ws[i := w], n) == Ranks(ws, n) - Rank(ws[i], n) + Rank(w, n)
    decreases |ws|
  {
    hide Rank;
    if i == 0 {
      assert ws[0 := w][1..] == ws[1..];
    } else {
      assert ws[i := w][1..] == ws[1..][i - 1 := w];
      RanksUpdate(ws[1..], i - 1, w, n);
    }
  }

  /** The queue is empty, but a worker has yet to let go of the mutex. */
  function Leaving(s: Pool): nat { if s.q.tasks == [] && s.locks.task.Some? then 1 else 0 }

  /** Closer to the end: fewer tasks queued, or the mutex free, or a worker further on. */
  predicate Closer(s': Pool, s: Pool)
  {
    || |s'.q.tasks| < |s.q.tasks|
    || (s'.q.tasks == s.q.tasks &&
        (Leaving(s') < Leaving(s) ||
         (Leaving(s') == Leaving(s) && Ranks(s'.workers, |s'.list|) < Ranks(s.workers, |s.list|))))
  }

  /** A worker's step, unless it wakes up for nothing, brings the end closer. */
  lemma WorkerCloser(s: Pool, i: nat)
    requires LockInv(s) && Enabled(s, WorkerStep(i))
    requires s.workers[i].Top? || s.workers[i].Claimed? ==> s.q.tasks != []
    ensures Closer(StepWorker(s, i), s)
  {
    WorkerRank(s, i);
    WorkerMoves(s, i);
    RanksUpdate(s.workers, i, StepWorker(s, i).workers[i], |s.list|);
    hide StepWorker, Ranks, Rank, LockInv;
  }

  lemma WorkerRank(s: Pool, i: nat)
    requires LockInv(s) && Enabled(s, WorkerStep(i))
    requires s.workers[i].Top? || s.workers[i].Claimed? ==> s.q.tasks != []
    ensures var s', n := StepWorker(s, i), |s.list|;
            && |s'.list| == n
            && (|s'.q.tasks| < |s.q.tasks| ||
                (s'.q.tasks == s.q.tasks &&
                 (Leaving(s') < Leaving(s) || (Leaving(s') == Leaving(s) && Rank(s'.workers[i], n) < Rank(s.workers[i], n)))))
  {
    assert s.workers[i].Awake? ==> HoldsTask(s.workers[i]) && s.locks.task == Some(i);
    hide LockInv;
  }

  /** Nobody has anything left to do. */
  predicate AtRest(s: Pool)
  {
    s.q.tasks == [] && forall i :: 0 <= i < |s.workers| ==> s.workers[i].Top? || s.workers[i].Gone?
  }

  /** A worker that holds the task mutex can always go on: no client is in the way. */
  lemma HolderEnabled(s: Pool)
    requires LockInv(s) && AllOut(s) && s.locks.task.Some?
    ensures var i := s.locks.task.value;
            i < |s.workers| && HoldsTask(s.workers[i]) && Enabled(s, WorkerStep(i))
  {
    var i := s.locks.task.value;
    assert HoldsTask(s.workers[i]);
    assert forall j :: 0 <= j < |s.workers| && WorkerHoldsThread(s.workers[j]) ==> HoldsTask(s.workers[j]);
    assert forall c :: 0 <= c < |s.clients| ==> !ClientHoldsThread(s.clients[c]);
  }

  /** Unless all is at rest, some worker can bring the end closer. */
  lemma SomeoneCanGoOn(s: Pool) returns (i: nat)
    requires Inv(s) && s.min >= 1 && s.max >= 1 && AllOut(s) && !AtRest(s)
    ensures Enabled(s, WorkerStep(i)) && (s.workers[i].Top? || s.workers[i].Claimed? ==> s.q.tasks != [])
  {
    if s.q.tasks != [] {
      TasksNeedStart(s);
    }
    hide CountInv, JoinInv, QuietInv, SteadyInv, WaitInv, FixedInv, Tally, Serving;
    if s.locks.task.Some? {
      HolderEnabled(s);
      i := s.locks.task.value;
      ClaimSafe(s, i);
      assert !s.workers[i].Top?;
    } else if k: nat :| k < |s.workers| && (s.workers[k].Running? || s.workers[k].Finished?) {
      i := k;
    } else {
      assert forall k :: 0 <= k < |s.workers| ==> !HoldsTask(s.workers[k]);
      SomeoneServes(s);
      var k: nat :| k < |s.workers| && Serving(s.workers[k]);
      i := k;
      assert s.workers[i].Top? by { NotHolding(s.workers[i]); }
    }
  }

  lemma NotHolding(w: Worker)
    requires !HoldsTask(w) && Serving(w) && !w.Running? && !w.Finished?
    ensures w.Top?
  {
  }

  lemma TasksNeedStart(s: Pool)
    requires QueueInv(s) && ServeInv(s) && s.min >= 1 && s.max >= 1 && s.q.tasks != []
    ensures s.n.cur >= 1
  {
    assert |s.q.tasks| == s.q.committed - s.q.popped;
    hide QueueInv, Tally;
  }

  lemma RestMeansFinished(s: Pool)
    requires QueueInv(s) && AtRest(s)
    ensures FinishedBelow(s, s.q.committed)
  {
    NoneBusyMeansFinished(s);
    assert |s.q.tasks| == s.q.committed - s.q.popped;
    hide QueueInv;
  }

  lemma WorkerKeepsQueueLength(s: Pool, i: nat)
    requires QueueInv(s) && Enabled(s, WorkerStep(i))
    ensures var s' := StepWorker(s, i);
            s'.clients == s.clients && s'.q.committed == s.q.committed && s'.min == s.min && s'.max == s.max
  {
    WorkerMoves(s, i);
    WorkerSteadyEffect(s, i);
    WorkerBoundEffect(s, i);
    hide StepWorker, QueueInv;
  }

  lemma OneCloser(s: Pool) returns (i: nat)
    requires Inv(s) && s.min >= 1 && s.max >= 1 && AllOut(s) && !AtRest(s)
    ensures Enabled(s, WorkerStep(i)) && Closer(Apply(s, WorkerStep(i)), s)
    ensures var s' := Apply(s, WorkerStep(i));
            Inv(s') && s'.min == s.min && s'.max == s.max && AllOut(s') && s'.q.committed == s.q.committed
  {
    i := SomeoneCanGoOn(s);
    assert LockInv(s) && QueueInv(s) && Enabled(s, WorkerStep(i)) && Apply(s, WorkerStep(i)) == StepWorker(s, i);
    hide StepWorker, Inv, LockInv, QueueInv, AtRest, Closer, Enabled, Apply;
    WorkerCloser(s, i);
    WorkerKeepsQueueLength(s, i);
    StepKeepsInv(s, WorkerStep(i));
  }

  lemma RunCons(s: Pool, a: Action, rest: seq<Action>)
    requires a.WorkerStep? && WorkersOnly(rest) && Enabled(s, a) && Legal(Apply(s, a), rest)
    ensures WorkersOnly([a] + rest) && Legal(s, [a] + rest) && Run(s, [a] + rest) == Run(Apply(s, a), rest)
  {
    hide Apply, Enabled;
    assert ([a] + rest)[1..] == rest;
  }

  lemma RestRun(s: Pool)
    requires Inv(s) && AtRest(s)
    ensures WorkersOnly([]) && Legal(s, []) && Run(s, []) == s && FinishedBelow(s, s.q.committed)
  {
    RestMeansFinished(s);
  }

  lemma CloserDecreases(s': Pool, s: Pool)
    requires Closer(s', s)
    ensures |s'.q.tasks| < |s.q.tasks|
            || (|s'.q.tasks| == |s.q.tasks| &&
                (Leaving(s') < Leaving(s) ||
                 (Leaving(s') == Leaving(s) && Ranks(s'.workers, |s'.list|) < Ranks(s.workers, |s.list|))))
  {
    hide Ranks;
  }

  lemma {:induction false} FinishAll(s: Pool) returns (run: seq<Action>)
    requires Inv(s) && s.min >= 1 && s.max >= 1 && AllOut(s)
    ensures WorkersOnly(run) && Legal(s, run)
    ensures var q := Run(s, run); AtRest(q) && q.q.committed == s.q.committed && FinishedBelow(q, s.q.committed)
    decreases |s.q.tasks|, Leaving(s), Ranks(s.workers, |s.list|)
  {
    hide *;
    if AtRest(s) {
      run := [];
      RestRun(s);
    } else {
      var i := OneCloser(s);
      CloserDecreases(Apply(s, WorkerStep(i)), s);
      var rest := FinishAll(Apply(s, WorkerStep(i)));
      run := [WorkerStep(i)] + rest;
      RunCons(s, WorkerStep(i), rest);
    }
  }

  /** With positive limits, in every reachable state with no client in a call the workers alone can
      finish every committed task and come to rest. */
  lemma EveryTaskFinishes(min: int, max: int, clients: nat, before: seq<Action>) returns (run: seq<Action>)
    requires min >= 1 && max >= 1 && Legal(Init(min, max, clients), before) && AllOut(Run(Init(min, max, clients), before))
    ensures var s := Run(Init(min, max, clients), before);
            && WorkersOnly(run) && Legal(s, run) && var q := Run(s, run);
            AtRest(q) && q.q.committed == s.q.committed && FinishedBelow(q, s.q.committed)
  {
    InitInv(min, max, clients);
    RunKeepsInv(Init(min, max, clients), before);
    LimitsFixed(Init(min, max, clients), before);
    hide Legal, Run, Inv, AtRest, FinishedBelow;
    run := FinishAll(Run(Init(min, max, clients), before));
  }

  // ---- when `wait` returns too early

  /** `wait` has returned although a task that was committed before its call has not finished. */
  ghost predicate Missed(s: Pool)
  {
    !s.waiter.Absent? && !InWait(s.waiter) && exists t: nat :: t < s.call.mark && t !in s.q.finished
  }

  /** A worker between its two decrements hides one that runs a task, whatever count is read first. */
  lemma RetiringHidesTask(min: int, max: int, clients: nat, idleFirst: bool) returns (run: seq<Action>)
    requires clients >= 1 && max >= 2 && min < max
    ensures var s := Init(min, max, clients); Legal(s, run) && Missed(Run(s, run)) && Run(s, run).waiter == Returned(idleFirst)
  {
    var s := Init(min, max, clients);
    assert StartCount(max, min, max) == max;
    run := StartUp(min, max, clients, max);
    hide Legal, Run;
    run := CommitQuick(s, run, 0);
    run := TakeTask(s, run, 0, 0);
    run := RetireHalfway(s, run, 1);
    run := WaitReturns(s, run, idleFirst);
    assert 0 !in Run(s, run).q.finished && Run(s, run).call.mark == 1;
  }

  /** A whole commit that makes its thread. */
  lemma CommitWhole(s: Pool, run: seq<Action>, c: nat) returns (run': seq<Action>)
    requires Legal(s, run)
    requires var p := Run(s, run);
             && c < |p.clients| && p.clients[c].Out? && p.running && p.n.idle == 0 && p.n.cur < p.max
             && p.locks == Locks(None, None)
    ensures Legal(s, run')
    ensures var p := Run(s, run);
            Run(s, run') == p.(q := p.q.(tasks := p.q.tasks + [p.q.committed], committed := p.q.committed + 1),
                               n := Counts(p.n.cur + 1, p.n.idle + 1), workers := p.workers + [Top],
                               list := p.list + [Entry(|p.workers|, false)], call := p.call.(quiet := false))
  {
    var p := Run(s, run);
    hide Legal, Run;
    run' := CommitCreates(s, run, c);
    run' := CountOne(s, run', c);
    run' := Then(s, run', ClientStep(c));
    assert p.clients[c := Spawned(ThenPush, |p.workers|)][c := Push][c := Out] == p.clients;
  }

  /** Client 1 has called `start`, and its first thread is not counted yet. */
  lemma OneUncounted(min: int, max: int, clients: nat) returns (run: seq<Action>)
    requires clients >= 2 && max >= 1
    ensures Legal(Init(min, max, clients), run)
    ensures var p := Run(Init(min, max, clients), run);
            && p.running && p.q == Queue([], 0, 0, {}) && p.n == Counts(0, 0) && p.locks == Locks(None, None)
            && p.workers == [Top] && p.max == max && |p.clients| == clients && p.clients[0].Out? && p.clients[1].Spawned?
            && p.waiter.Absent?
  {
    var s := Init(min, max, clients);
    run := [];
    assert Legal(s, run) && Run(s, run) == s;
    assert StartCount(1, min, max) >= 1;
    hide Legal, Run, StartCount;
    run := OpenStart(s, run, 1, 1);
    run := EnterLoop(s, run, 1);
    run := CreateAt(s, run, 1);
  }

  /** A thread that is counted between the two reads, the thread count being read first, hides one that
      runs a task: one client has called `start` and has its thread still to count, another commits. */
  lemma AddingHidesTask(min: int, max: int, clients: nat) returns (run: seq<Action>)
    requires clients >= 2 && max >= 1
    ensures var s := Init(min, max, clients); Legal(s, run) && Missed(Run(s, run)) && Run(s, run).waiter == Returned(false)
  {
    var s := Init(min, max, clients);
    run := OneUncounted(min, max, clients);
    hide Legal, Run, AfterCreate;
    run := CommitWhole(s, run, 0);
    run := TakeTask(s, run, 1, 0);
    run := ReadCountFirst(s, run);
    run := CountOne(s, run, 1);
    run := Then(s, run, WaitStep(false));
    assert 0 !in Run(s, run).q.finished && Run(s, run).call.mark == 1;
  }

  /** A stranded task is taken up by the thread that the next commit makes, before it is counted; it is
      counted between the two reads. */
  lemma StrandedTaskHidden(min: int, max: int, clients: nat) returns (run: seq<Action>)
    requires clients >= 1 && max >= 1 && min <= 0
    ensures var s := Init(min, max, clients); Legal(s, run) && Missed(Run(s, run)) && Run(s, run).waiter == Returned(false)
  {
    var s := Init(min, max, clients);
    run := StrandByRetiring(min, max, clients);
    hide Legal, Run, Stranded, AfterCreate;
    run := CommitCreates(s, run, 0);
    run := TakeTask(s, run, 1, 0);
    run := ReadCountFirst(s, run);
    run := CountOne(s, run, 0);
    run := Then(s, run, WaitStep(false));
    assert 0 !in Run(s, run).q.finished && Run(s, run).call.mark == 1;
  }

  lemma NeverMissed(min: int, max: int, clients: nat, run: seq<Action>)
    requires Legal(Init(min, max, clients), run)
    requires clients == 0 || max <= 0 || (clients == 1 && min >= max)
    ensures !Missed(Run(Init(min, max, clients), run))
  {
    var s := Run(Init(min, max, clients), run);
    InitInv(min, max, clients);
    RunKeepsInv(Init(min, max, clients), run);
    LimitsFixed(Init(min, max, clients), run);
    assert clients == 0 ==> s.clients == [];
    hide Legal, Run, LockInv, QueueInv, CountInv, JoinInv, QuietInv, SteadyInv, Tally, FixedAt;
  }

  /** `wait` can miss a task committed before its call exactly when there is a thread to run it and
      either two threads call, or the one that calls leaves room between the limits: otherwise all
      threads are made before its first commit, and none retires. */
  lemma WaitMissesExactly(min: int, max: int, clients: nat)
    ensures (exists run :: Legal(Init(min, max, clients), run) && Missed(Run(Init(min, max, clients), run)))
            <==> clients >= 1 && max >= 1 && (clients >= 2 || min < max)
  {
    hide Missed, Legal, Run;
    if clients >= 2 && max >= 1 {
      var run := AddingHidesTask(min, max, clients);
    } else if clients >= 1 && max >= 2 && min < max {
      var run := RetiringHidesTask(min, max, clients, true);
    } else if clients >= 1 && max >= 1 && min < max {
      var run := StrandedTaskHidden(min, max, clients);
    } else {
      forall run | Legal(Init(min, max, clients), run) ensures !Missed(Run(Init(min, max, clients), run)) {
        NeverMissed(min, max, clients, run);
      }
    }
  }
}
