/**
 The worker threads of the broker manager as an interleaving of atomic steps: any number of
 threads run `doCaptureDbus` over the same list of brokers, every one with its own program
 counter. The readiness test outside the lock reads the broker's time stamp twice, so other
 threads may write it in between.
 */
module Scheduler {
  import opened Brokers
  import opened Options

  datatype Pc =
    | CheckActive                       // while (active)
    | Select(i: nat)                    // the loop over the brokers, and isTimeout's first read of the time stamp
    | Peeked(i: nat, neverRun: bool)    // isTimeout's second read of the time stamp, and the clock
    | TryLock(i: nat)
    | Retest(i: nat)                    // isTimeout once more, under the lock
    | Process(i: nat)
    | Publish(i: nat)                   // setInstances
    | Stamp(i: nat)                     // setExecutionTime
    | Unlock(i: nat)
    | Wait                              // wait and process_discard on the match connection
    | Exited

  /** `starts` and `ends` record when the broker's runs passed the second readiness test and were stamped. */
  datatype Task = Task(timeout: nat, lastExecutionTime: int, lock: Option<nat>, starts: seq<int>, ends: seq<int>)

  datatype State = State(now: int, active: bool, tasks: seq<Task>, threads: seq<Pc>)

  datatype Action =
    | Tick(elapsed: nat)
    | Terminate
    | Run(thread: nat)

  /** One step of a thread that has not exited. */
  function ThreadStep(s: State, t: nat): State
    requires t < |s.threads| && s.threads[t] != Exited && PcInRange(s, s.threads[t])
  {
    var pc := s.threads[t];
    match pc
    case CheckActive => s.(threads := s.threads[t := if s.active then Select(0) else Exited])
    case Wait => s.(threads := s.threads[t := CheckActive])
    case Select(i) =>
      if i == |s.tasks| then s.(threads := s.threads[t := Wait])
      else s.(threads := s.threads[t := Peeked(i, s.tasks[i].lastExecutionTime == 0)])
    case Peeked(i, neverRun) =>
      var task := s.tasks[i];
      var ready := neverRun || (task.timeout != 0 && Seconds(s.now) > task.lastExecutionTime + task.timeout);
      s.(threads := s.threads[t := if ready then TryLock(i) else Select(i + 1)])
    case TryLock(i) =>
      if s.tasks[i].lock.Some? then s.(threads := s.threads[t := Select(i + 1)])
      else Change(s, t, Retest(i), i, s.tasks[i].(lock := Some(t)))
    case Retest(i) =>
      var task := s.tasks[i];
      if IsReady(task.lastExecutionTime, task.timeout, s.now)
      then Change(s, t, Process(i), i, task.(starts := task.starts + [s.now]))
      else s.(threads := s.threads[t := Unlock(i)])
    case Process(i) => s.(threads := s.threads[t := Publish(i)])
    case Publish(i) => s.(threads := s.threads[t := Stamp(i)])
    case Stamp(i) =>
      var task := s.tasks[i];
      Change(s, t, Unlock(i), i, task.(lastExecutionTime := Seconds(s.now), ends := task.ends + [s.now]))
    case Unlock(i) => Change(s, t, Select(i + 1), i, s.tasks[i].(lock := None))
  }

  function Change(s: State, t: nat, pc: Pc, i: nat, task: Task): State
    requires t < |s.threads| && i < |s.tasks|
  {
    s.(threads := s.threads[t := pc], tasks := s.tasks[i := task])
  }

  predicate PcInRange(s: State, pc: Pc) {
    match pc
    case CheckActive => true
    case Wait => true
    case Exited => true
    case Select(i) => i <= |s.tasks|
    case _ => pc.i < |s.tasks|
  }

  predicate Enabled(s: State, a: Action) {
    match a
    case Run(t) => t < |s.threads| && s.threads[t] != Exited && PcInRange(s, s.threads[t])
    case _ => true
  }

  function Next(s: State, a: Action): State
    requires Enabled(s, a)
  {
    match a
    case Tick(elapsed) => s.(now := s.now + elapsed)
    case Terminate => s.(active := false)
    case Run(t) => ThreadStep(s, t)
  }

  /** The threads have just been started. */
  predicate Initial(s: State) {
    && (forall t | 0 <= t < |s.threads| :: s.threads[t] == CheckActive)
    && (forall i | 0 <= i < |s.tasks| ::
          && s.tasks[i].lastExecutionTime == 0 && s.tasks[i].lock.None?
          && s.tasks[i].starts == [] && s.tasks[i].ends == [])
  }

  /** `run` is a possible interleaving from `s`. */
  predicate Possible(s: State, run: seq<Action>)
    decreases |run|
  {
    run == [] || (Enabled(s, run[0]) && Possible(Next(s, run[0]), run[1..]))
  }

  function After(s: State, run: seq<Action>): State
    requires Possible(s, run)
    decreases |run|
  {
    if run == [] then s else After(Next(s, run[0]), run[1..])
  }

  // The invariant

  /** The thread is between a successful `try_lock` of broker `i` and the release. */
  predicate Holds(pc: Pc, i: nat) {
    pc == Retest(i) || InRun(pc, i) || pc == Unlock(i)
  }

  /** The thread has passed the readiness test under the lock of broker `i` and has not stamped it yet. */
  predicate InRun(pc: Pc, i: nat) {
    pc == Process(i) || pc == Publish(i) || pc == Stamp(i)
  }

  predicate LocksAgree(s: State) {
    && (forall t | 0 <= t < |s.threads| :: PcInRange(s, s.threads[t]))
    && (forall t, i | 0 <= t < |s.threads| && 0 <= i < |s.tasks| ::
          Holds(s.threads[t], i) <==> s.tasks[i].lock == Some(t))
    && (forall i | 0 <= i < |s.tasks| && s.tasks[i].lock.Some? :: s.tasks[i].lock.value < |s.threads|)
  }

  /** A run of broker `i` is under way. */
  predicate Running(s: State, i: nat)
    requires i < |s.tasks|
  {
    s.tasks[i].lock.Some? && s.tasks[i].lock.value < |s.threads| && InRun(s.threads[s.tasks[i].lock.value], i)
  }

  /** A time whose whole seconds are zero: a broker stamped with it reads as never having run. */
  predicate AtEpoch(t: int) {
    -SECOND < t < SECOND
  }

  /** What the recorded runs of one broker satisfy at time `now`, since a start at time `begin`. */
  predicate HistoryOk(task: Task, running: bool, begin: int, now: int) {
    && |task.starts| == |task.ends| + (if running then 1 else 0)
    && (forall k | 0 <= k < |task.starts| :: begin <= task.starts[k] <= now)
    && (forall k | 0 <= k < |task.ends| :: task.starts[k] <= task.ends[k] <= now)
    && (if task.ends == [] then task.lastExecutionTime == 0
        else task.lastExecutionTime == Seconds(task.ends[|task.ends| - 1]))
    && Spaced(task)
  }

  /**
   Runs of one broker are serial. One follows another only after more than a positive timeout, unless the earlier one
   was stamped less than a second from the epoch.
   */
  predicate Spaced(task: Task) {
    forall k | 0 <= k < |task.ends| && k + 1 < |task.starts| ::
      && task.ends[k] <= task.starts[k + 1]
      && (AtEpoch(task.ends[k])
          || (task.timeout > 0 && task.starts[k + 1] > task.ends[k] + task.timeout * SECOND))
  }

  /** No thread has left its loop. */
  predicate AllLooping(s: State) {
    forall t | 0 <= t < |s.threads| :: s.threads[t] != Exited
  }

  /** The invariant of a run that began at time `begin`. */
  predicate Inv(s: State, begin: int) {
    && begin <= s.now
    && LocksAgree(s)
    && (s.active ==> AllLooping(s))
    && (forall i | 0 <= i < |s.tasks| :: HistoryOk(s.tasks[i], Running(s, i), begin, s.now))
  }

  lemma InitialInv(s: State)
    requires Initial(s)
    ensures Inv(s, s.now)
  {
  }

  /** A step that changes no task and keeps what its thread holds. */
  lemma MoveKeepsLocks(s: State, t: nat, pc: Pc)
    requires LocksAgree(s) && t < |s.threads| && PcInRange(s, pc)
    requires forall i: nat :: Holds(pc, i) <==> Holds(s.threads[t], i)
    ensures LocksAgree(s.(threads := s.threads[t := pc]))
  {
  }

  /** A step that takes or releases the lock of broker `i`, or changes its data while holding it. */
  lemma ChangeKeepsLocks(s: State, t: nat, pc: Pc, i: nat, task: Task)
    requires LocksAgree(s) && t < |s.threads| && i < |s.tasks| && PcInRange(s, pc)
    requires s.tasks[i].lock == None || s.tasks[i].lock == Some(t)
    requires task.lock == if Holds(pc, i) then Some(t) else None
    requires forall j: nat | j != i :: !Holds(pc, j) && !Holds(s.threads[t], j)
    ensures LocksAgree(Change(s, t, pc, i, task))
  {
  }

  /** The thread takes, uses or releases a lock in its next step. */
  predicate AtLock(s: State, pc: Pc)
    requires PcInRange(s, pc)
  {
    (pc.TryLock? && s.tasks[pc.i].lock.None?) || pc.Retest? || pc.Stamp? || pc.Unlock?
  }

  lemma LockStep(s: State, t: nat)
    requires LocksAgree(s) && Enabled(s, Run(t)) && AtLock(s, s.threads[t])
    ensures LocksAgree(ThreadStep(s, t))
  {
    var next, pc := ThreadStep(s, t), s.threads[t];
    assert pc.TryLock? || Holds(pc, pc.i);
    ChangeKeepsLocks(s, t, next.threads[t], pc.i, next.tasks[pc.i]);
    assert next == Change(s, t, next.threads[t], pc.i, next.tasks[pc.i]);
  }

  lemma StepKeepsLocks(s: State, t: nat)
    requires LocksAgree(s) && Enabled(s, Run(t))
    ensures LocksAgree(ThreadStep(s, t))
  {
    if AtLock(s, s.threads[t]) {
      LockStep(s, t);
    } else {
      MoveKeepsLocks(s, t, ThreadStep(s, t).threads[t]);
    }
  }

  lemma StartKeepsHistory(task: Task, begin: int, now: int)
    requires begin <= now && HistoryOk(task, false, begin, now)
    requires IsReady(task.lastExecutionTime, task.timeout, now)
    ensures HistoryOk(task.(starts := task.starts + [now]), true, begin, now)
  {
    if task.ends != [] {
      ReadyWindow(task.ends[|task.ends| - 1], task.timeout, now);
    }
  }

  lemma StampKeepsHistory(task: Task, begin: int, now: int)
    requires HistoryOk(task, true, begin, now)
    ensures HistoryOk(task.(lastExecutionTime := Seconds(now), ends := task.ends + [now]), false, begin, now)
  {
  }

  lemma StepKeepsHistory(s: State, t: nat, i: nat, begin: int)
    requires Inv(s, begin) && Enabled(s, Run(t)) && i < |s.tasks|
    ensures HistoryOk(ThreadStep(s, t).tasks[i], Running(ThreadStep(s, t), i), begin, s.now)
  {
    var next, pc := ThreadStep(s, t), s.threads[t];
    if pc == Stamp(i) || (pc == Retest(i) && next.threads[t] == Process(i)) {
      LoudStep(s, t, i, begin);
    } else {
      QuietStep(s, t, i);
      HistoryIgnoresLock(s.tasks[i], next.tasks[i], Running(s, i), begin, s.now);
    }
  }

  lemma HistoryIgnoresLock(a: Task, b: Task, running: bool, begin: int, now: int)
    requires a.(lock := None) == b.(lock := None) && HistoryOk(a, running, begin, now)
    ensures HistoryOk(b, running, begin, now)
  {
  }

  /** A step that starts or stamps a run of broker `i`. */
  lemma LoudStep(s: State, t: nat, i: nat, begin: int)
    requires Inv(s, begin) && Enabled(s, Run(t)) && i < |s.tasks|
    requires s.threads[t] == Stamp(i) || (s.threads[t] == Retest(i) && ThreadStep(s, t).threads[t] == Process(i))
    ensures HistoryOk(ThreadStep(s, t).tasks[i], Running(ThreadStep(s, t), i), begin, s.now)
  {
    assert Holds(s.threads[t], i);
    assert s.tasks[i].lock == Some(t);
    assert HistoryOk(s.tasks[i], Running(s, i), begin, s.now);
    if s.threads[t] == Stamp(i) {
      StampKeepsHistory(s.tasks[i], begin, s.now);
    } else {
      StartKeepsHistory(s.tasks[i], begin, s.now);
    }
  }

  /** A step that neither starts nor stamps a run of broker `i` changes at most its lock. */
  lemma QuietStep(s: State, t: nat, i: nat)
    requires LocksAgree(s) && Enabled(s, Run(t)) && i < |s.tasks|
    requires s.threads[t] != Stamp(i) && !(s.threads[t] == Retest(i) && ThreadStep(s, t).threads[t] == Process(i))
    ensures ThreadStep(s, t).tasks[i].(lock := None) == s.tasks[i].(lock := None)
    ensures Running(ThreadStep(s, t), i) == Running(s, i)
  {
    assert Holds(s.threads[t], i) <==> s.tasks[i].lock == Some(t);
  }

  lemma StepKeepsLooping(s: State, a: Action)
    requires Enabled(s, a) && (s.active ==> AllLooping(s))
    ensures Next(s, a).active ==> AllLooping(Next(s, a))
  {
  }

  lemma StepKeepsInv(s: State, a: Action, begin: int)
    requires Inv(s, begin) && Enabled(s, a)
    ensures Inv(Next(s, a), begin)
  {
    StepKeepsLooping(s, a);
    if a.Run? {
      StepKeepsLocks(s, a.thread);
      forall i | 0 <= i < |s.tasks|
        ensures HistoryOk(Next(s, a).tasks[i], Running(Next(s, a), i), begin, s.now)
      {
        StepKeepsHistory(s, a.thread, i, begin);
      }
    } else {
      EnvironmentKeepsInv(s, a, begin);
    }
  }

  lemma HistoryOutlasts(task: Task, running: bool, begin: int, now: int, later: int)
    requires HistoryOk(task, running, begin, now) && now <= later
    ensures HistoryOk(task, running, begin, later)
  {
  }

  lemma EnvironmentKeepsInv(s: State, a: Action, begin: int)
    requires Inv(s, begin) && !a.Run?
    ensures Inv(Next(s, a), begin)
  {
    var next := Next(s, a);
    assert next.tasks == s.tasks && next.threads == s.threads && s.now <= next.now;
    forall i | 0 <= i < |s.tasks|
      ensures HistoryOk(s.tasks[i], Running(s, i), begin, next.now)
    {
      HistoryOutlasts(s.tasks[i], Running(s, i), begin, s.now, next.now);
    }
    forall i | 0 <= i < |s.tasks|
      ensures Running(next, i) == Running(s, i)
    {
    }
  }

  lemma {:induction false} RunKeepsInv(s: State, run: seq<Action>, begin: int)
    requires Inv(s, begin) && Possible(s, run)
    ensures Inv(After(s, run), begin)
    decreases |run|
  {
    if run != [] {
      StepKeepsInv(s, run[0], begin);
      RunKeepsInv(Next(s, run[0]), run[1..], begin);
    }
  }

  // Safety over every interleaving

  /** At most one thread is inside a broker's section, however the threads interleave and whatever the clock shows. */
  lemma MutualExclusion(s: State, run: seq<Action>, t: nat, u: nat, i: nat)
    requires Initial(s) && Possible(s, run)
    requires var r := After(s, run);
             t < |r.threads| && u < |r.threads| && i < |r.tasks| && Holds(r.threads[t], i) && Holds(r.threads[u], i)
    ensures t == u
  {
    InitialInv(s);
    RunKeepsInv(s, run, s.now);
    assert After(s, run).tasks[i].lock == Some(t);
    assert After(s, run).tasks[i].lock == Some(u);
  }

  lemma ReachedHistory(s: State, run: seq<Action>, i: nat)
    requires Initial(s) && Possible(s, run) && i < |After(s, run).tasks|
    ensures HistoryOk(After(s, run).tasks[i], Running(After(s, run), i), s.now, After(s, run).now)
  {
    InitialInv(s);
    RunKeepsInv(s, run, s.now);
  }

  /**
   A single-shot broker runs again only if its last completion was less than a second from the epoch. On a clock past
   its first second it is processed at most once, even when many threads see it ready at the same time.
   */
  lemma SingleShotRunsOnce(s: State, run: seq<Action>, i: nat)
    requires Initial(s) && Possible(s, run)
    requires i < |After(s, run).tasks| && After(s, run).tasks[i].timeout == 0
    ensures var task := After(s, run).tasks[i];
      && |task.ends| <= |task.starts|
      && |task.starts| <= |task.ends| + 1
      && (forall k | 0 <= k < |task.ends| && k + 1 < |task.starts| :: AtEpoch(task.ends[k]))
      && (s.now >= SECOND ==> |task.starts| <= 1)
  {
    ReachedHistory(s, run, i);
    var task := After(s, run).tasks[i];
    if |task.starts| > 1 {
      assert s.now <= task.starts[0] <= task.ends[0];
    }
  }

  /**
   A periodic broker never starts a run until strictly more than its timeout after the previous completion, unless
   that was less than a second from the epoch.
   */
  lemma RunsAreSpaced(s: State, run: seq<Action>, i: nat, k: nat)
    requires Initial(s) && Possible(s, run)
    requires i < |After(s, run).tasks| && k + 1 < |After(s, run).tasks[i].starts|
    ensures var task := After(s, run).tasks[i];
      && k < |task.ends| && task.ends[k] <= task.starts[k + 1]
      && (AtEpoch(task.ends[k]) || task.starts[k + 1] > task.ends[k] + task.timeout * SECOND)
      && (s.now >= SECOND ==> !AtEpoch(task.ends[k]))
  {
    ReachedHistory(s, run, i);
    assert After(s, run).tasks[i].starts[k] <= After(s, run).tasks[i].ends[k];
  }

  /** One second after its timeout has passed, a periodic broker is ready. */
  lemma ReadyInTime(s: State, run: seq<Action>, i: nat)
    requires Initial(s) && Possible(s, run)
    requires i < |After(s, run).tasks|
    requires var task := After(s, run).tasks[i];
             && task.timeout > 0 && task.ends != [] && task.ends[|task.ends| - 1] >= 0
             && After(s, run).now >= task.ends[|task.ends| - 1] + (task.timeout + 1) * SECOND
    ensures var r := After(s, run); IsReady(r.tasks[i].lastExecutionTime, r.tasks[i].timeout, r.now)
  {
    ReachedHistory(s, run, i);
    var r := After(s, run);
    ReadyWindow(r.tasks[i].ends[|r.tasks[i].ends| - 1], r.tasks[i].timeout, r.now);
  }

  // Termination

  /** How many of its own steps a thread can still take once `active` is false. */
  function StepsLeft(pc: Pc, n: nat): int {
    match pc
    case Exited => 0
    case CheckActive => 1
    case Wait => 2
    case Select(i) => 3 + 8 * (n - i)
    case Peeked(i, _) => 2 + 8 * (n - i)
    case TryLock(i) => 1 + 8 * (n - i)
    case Retest(i) => 8 * (n - i)
    case Process(i) => 8 * (n - i) - 1
    case Publish(i) => 8 * (n - i) - 2
    case Stamp(i) => 8 * (n - i) - 3
    case Unlock(i) => 8 * (n - i) - 4
  }

  function CountSteps(run: seq<Action>, t: nat): nat {
    if run == [] then 0 else (if run[0] == Run(t) then 1 else 0) + CountSteps(run[1..], t)
  }

  /** Where a thread is does not depend on the steps of others. */
  lemma OthersStay(s: State, a: Action, t: nat)
    requires Enabled(s, a) && t < |s.threads|
    ensures |Next(s, a).threads| == |s.threads| && |Next(s, a).tasks| == |s.tasks|
    ensures !s.active ==> !Next(s, a).active
    ensures a != Run(t) ==> Next(s, a).threads[t] == s.threads[t]
  {
  }

  /** Once `active` is false, every step brings its thread closer to the exit. */
  lemma StepsDecrease(s: State, t: nat)
    requires Enabled(s, Run(t)) && !s.active
    ensures StepsLeft(ThreadStep(s, t).threads[t], |s.tasks|) <= StepsLeft(s.threads[t], |s.tasks|) - 1
  {
    var pc, next := s.threads[t], ThreadStep(s, t).threads[t];
    match pc
    case CheckActive => assert next == Exited;
    case Wait => assert next == CheckActive;
    case Select(i) => assert next == Wait || next.Peeked?;
    case Peeked(i, _) => assert next == TryLock(i) || next == Select(i + 1);
    case TryLock(i) => assert next == Retest(i) || next == Select(i + 1);
    case Retest(i) => assert next == Process(i) || next == Unlock(i);
    case Process(i) => assert next == Publish(i);
    case Publish(i) => assert next == Stamp(i);
    case Stamp(i) => assert next == Unlock(i);
    case Unlock(i) => assert next == Select(i + 1);
  }

  /**
   After `terminate` every thread exits within a bounded number of its own steps, whatever the
   other threads do: it is never blocked before it has exited, and it cannot step more often.
   */
  lemma {:induction false} ThreadsTerminate(s: State, run: seq<Action>, t: nat)
    requires LocksAgree(s) && !s.active && Possible(s, run) && t < |s.threads|
    ensures var r := After(s, run);
            && t < |r.threads|
            && 0 <= StepsLeft(r.threads[t], |s.tasks|) <= StepsLeft(s.threads[t], |s.tasks|) - CountSteps(run, t)
            && (r.threads[t] == Exited <==> !Enabled(r, Run(t)))
    decreases |run|
  {
    if run != [] {
      StepKeepsLockOrder(s, run[0]);
      OthersStay(s, run[0], t);
      if run[0] == Run(t) {
        StepsDecrease(s, t);
      }
      ThreadsTerminate(Next(s, run[0]), run[1..], t);
    }
  }

  lemma StepKeepsLockOrder(s: State, a: Action)
    requires LocksAgree(s) && Enabled(s, a)
    ensures LocksAgree(Next(s, a))
  {
    if a.Run? {
      StepKeepsLocks(s, a.thread);
    } else {
      assert Next(s, a).tasks == s.tasks && Next(s, a).threads == s.threads;
    }
  }

  // Work while active

  /** A thread leaves its loop only after `terminate`, however the threads interleave. */
  lemma ExitedOnlyWhenTerminated(s: State, run: seq<Action>, t: nat)
    requires Initial(s) && Possible(s, run) && t < |After(s, run).threads| && After(s, run).threads[t] == Exited
    ensures !After(s, run).active
  {
    InitialInv(s);
    RunKeepsInv(s, run, s.now);
  }

  /** Broker `i` has been served: it has been run once, at this moment, if it was free and due. */
  predicate Served(before: Task, after: Task, now: int) {
    && after.lock == before.lock && after.timeout == before.timeout
    && (if before.lock.None? && IsReady(before.lastExecutionTime, before.timeout, now)
        then after.starts == before.starts + [now] && after.ends == before.ends + [now]
        else after.starts == before.starts && after.ends == before.ends)
  }

  /** The thread alone has gone from one place to another and served the brokers from `i` to `j`. */
  ghost predicate Serves(s: State, r: State, t: nat, i: nat, j: nat) {
    && r.now == s.now && r.active == s.active && |r.threads| == |s.threads| && |r.tasks| == |s.tasks|
    && (forall u | 0 <= u < |s.threads| && u != t :: r.threads[u] == s.threads[u])
    && (forall k | 0 <= k < |s.tasks| :: if i <= k < j then Served(s.tasks[k], r.tasks[k], s.now)
                                        else r.tasks[k] == s.tasks[k])
  }

  function Alone(t: nat, steps: nat): seq<Action> {
    seq(steps, k => Run(t))
  }

  /** That many steps of the thread alone lead from `s` to `r`. */
  ghost predicate Arrives(s: State, t: nat, steps: nat, r: State) {
    Possible(s, Alone(t, steps)) && After(s, Alone(t, steps)) == r
  }

  lemma StepArrives(s: State, t: nat, steps: nat, r: State)
    requires Enabled(s, Run(t)) && Arrives(ThreadStep(s, t), t, steps, r)
    ensures Arrives(s, t, steps + 1, r)
  {
    assert Alone(t, steps + 1)[1..] == Alone(t, steps);
  }

  lemma {:induction false} ArrivesThen(s: State, t: nat, a: nat, m: State, b: nat, r: State)
    requires Arrives(s, t, a, m) && Arrives(m, t, b, r)
    ensures Arrives(s, t, a + b, r)
    decreases a
  {
    if a > 0 {
      assert Alone(t, a)[1..] == Alone(t, a - 1);
      ArrivesThen(ThreadStep(s, t), t, a - 1, m, b, r);
      StepArrives(s, t, a - 1 + b, r);
    }
  }

  /** From the readiness test under the lock of a broker that is due to the next broker. */
  lemma RunOne(s: State, t: nat, i: nat) returns (r: State)
    requires t < |s.threads| && i < |s.tasks| && s.threads[t] == Retest(i)
    requires s.tasks[i].lock == Some(t) && IsReady(s.tasks[i].lastExecutionTime, s.tasks[i].timeout, s.now)
    ensures Serves(s.(tasks := s.tasks[i := s.tasks[i].(lock := None)]), r, t, i, i + 1)
    ensures Arrives(s, t, 5, r) && r.threads[t] == Select(i + 1)
  {
    var s1 := ThreadStep(s, t);
    var s2 := ThreadStep(s1, t);
    var s3 := ThreadStep(s2, t);
    var s4 := ThreadStep(s3, t);
    r := ThreadStep(s4, t);
    assert Arrives(r, t, 0, r);
    StepArrives(s4, t, 0, r);
    StepArrives(s3, t, 1, r);
    StepArrives(s2, t, 2, r);
    StepArrives(s1, t, 3, r);
    StepArrives(s, t, 4, r);
  }

  /** A broker that is not due, or that another thread holds, is passed over. */
  lemma PassOver(s: State, t: nat, i: nat) returns (steps: nat, r: State)
    requires t < |s.threads| && i < |s.tasks| && s.threads[t] == Select(i)
    requires s.tasks[i].lock.Some? || !IsReady(s.tasks[i].lastExecutionTime, s.tasks[i].timeout, s.now)
    ensures steps <= 3 && Arrives(s, t, steps, r)
    ensures r == s.(threads := s.threads[t := Select(i + 1)])
  {
    var peeked := ThreadStep(s, t);
    var next := ThreadStep(peeked, t);
    if next.threads[t] == Select(i + 1) {
      steps, r := 2, next;
      assert Arrives(r, t, 0, r);
    } else {
      steps, r := 3, ThreadStep(next, t);
      assert Arrives(r, t, 0, r);
      StepArrives(next, t, 0, r);
    }
    StepArrives(peeked, t, steps - 2, r);
    StepArrives(s, t, steps - 1, r);
  }

  lemma TakeUp(s: State, t: nat, i: nat) returns (r: State)
    requires t < |s.threads| && i < |s.tasks| && s.threads[t] == Select(i)
    requires s.tasks[i].lock.None? && IsReady(s.tasks[i].lastExecutionTime, s.tasks[i].timeout, s.now)
    ensures Arrives(s, t, 3, r)
    ensures r == s.(threads := s.threads[t := Retest(i)], tasks := s.tasks[i := s.tasks[i].(lock := Some(t))])
  {
    var peeked := ThreadStep(s, t);
    var ready := ThreadStep(peeked, t);
    r := ThreadStep(ready, t);
    assert Arrives(r, t, 0, r);
    StepArrives(ready, t, 0, r);
    StepArrives(peeked, t, 1, r);
    StepArrives(s, t, 2, r);
  }

  /** From one broker to the next in at most eight steps. */
  lemma ServeOne(s: State, t: nat, i: nat) returns (steps: nat, r: State)
    requires t < |s.threads| && i < |s.tasks| && s.threads[t] == Select(i)
    ensures steps <= 8 && Arrives(s, t, steps, r)
    ensures Serves(s, r, t, i, i + 1) && r.threads[t] == Select(i + 1)
  {
    if s.tasks[i].lock.None? && IsReady(s.tasks[i].lastExecutionTime, s.tasks[i].timeout, s.now) {
      var taken := TakeUp(s, t, i);
      r := RunOne(taken, t, i);
      steps := 8;
      ArrivesThen(s, t, 3, taken, 5, r);
    } else {
      steps, r := PassOver(s, t, i);
    }
  }

  lemma ServesMore(s: State, m: State, r: State, t: nat, i: nat, j: nat, k: nat)
    requires i <= j <= k && Serves(s, m, t, i, j) && Serves(m, r, t, j, k)
    ensures Serves(s, r, t, i, k)
  {
  }

  lemma {:induction false} ServeAll(s: State, t: nat, i: nat) returns (steps: nat, r: State)
    requires t < |s.threads| && i <= |s.tasks| && s.threads[t] == Select(i)
    ensures steps <= 8 * (|s.tasks| - i) && Arrives(s, t, steps, r)
    ensures Serves(s, r, t, i, |s.tasks|) && r.threads[t] == Select(|s.tasks|)
    decreases |s.tasks| - i
  {
    if i == |s.tasks| {
      steps, r := 0, s;
    } else {
      var a, m := ServeOne(s, t, i);
      var b;
      b, r := ServeAll(m, t, i + 1);
      steps := a + b;
      ArrivesThen(s, t, a, m, b, r);
      ServesMore(s, m, r, t, i, i + 1, |s.tasks|);
    }
  }

  /**
   While `active` holds a thread works: from every reachable state in which it is at the head of its loop, a bounded
   number of its own steps takes it there again, and on the way every broker that is free and due is run exactly once
   and no other broker is.
   */
  lemma RoundServesAll(s: State, run: seq<Action>, t: nat)
    requires Initial(s) && Possible(s, run) && After(s, run).active
    requires t < |After(s, run).threads| && After(s, run).threads[t] == CheckActive
    ensures var m := After(s, run);
      exists steps: nat, r :: 0 < steps <= 8 * |m.tasks| + 3 && Arrives(m, t, steps, r)
        && Serves(m, r, t, 0, |m.tasks|) && r.threads[t] == CheckActive
  {
    var m := After(s, run);
    var head := ThreadStep(m, t);
    var steps, r := ServeAll(head, t, 0);
    var again := LoopAround(r, t);
    ArrivesThen(head, t, steps, r, 2, again);
    StepArrives(m, t, steps + 2, again);
    ServesElsewhere(m, head, r, again, t);
  }

  lemma LoopAround(s: State, t: nat) returns (r: State)
    requires t < |s.threads| && s.threads[t] == Select(|s.tasks|)
    ensures Arrives(s, t, 2, r) && r == s.(threads := s.threads[t := CheckActive])
  {
    var waiting := ThreadStep(s, t);
    r := ThreadStep(waiting, t);
    assert Arrives(r, t, 0, r);
    StepArrives(waiting, t, 0, r);
    StepArrives(s, t, 1, r);
  }

  /** Where the thread itself is does not matter to what it has served. */
  lemma ServesElsewhere(m: State, head: State, r: State, again: State, t: nat)
    requires t < |m.threads| && head == m.(threads := m.threads[t := Select(0)])
    requires Serves(head, r, t, 0, |head.tasks|) && again == r.(threads := r.threads[t := CheckActive])
    ensures Serves(m, again, t, 0, |m.tasks|)
  {
  }
}
