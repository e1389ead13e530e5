/**
 The launcher's sidecar hub: one crash watcher and any number of shutdown calls
 share a mutex-guarded slot that owns the current process.

 Every action below is one critical section, one blocking call that returns, or one
 move of the environment, so a sequence of actions is one interleaving.
 */
module Supervision {
  import opened Basics

  /** Durations are in milliseconds. */
  const SECOND := 1000
  const MAX_BACKOFF := 30 * SECOND

  /** The sync.Once around cmd.Wait. */
  datatype Once = Untouched | Running | Finished

  /**
   A process handle. `command` is false for the placeholder of --no-sidecar mode;
   `waits` counts the calls of cmd.Wait.
   */
  datatype Proc = Proc(command: bool, alive: bool, logOpen: bool, once: Once, waits: nat)

  /** Where the watcher stands. */
  datatype Watcher =
    | Top               // about to read the slot
    | Idle              // sleeping because the slot is empty
    | Waiting(p: nat)   // inside proc.wait
    | Exited(p: nat)    // wait returned, about to take the lock
    | Backoff           // sleeping before a restart
    | Recheck           // about to look at `stopping` again
    | Starting          // inside startSidecar, before cmd.Start, which fails on a cancelled context
    | Probing(p: nat)   // inside startSidecar, waiting for health
    | Discarding(p: nat) // inside startSidecar, stopping an unhealthy process
    | Installing(p: nat) // startSidecar returned, about to take the lock
    | Rejecting(p: nat) // stopping a process that came up during shutdown
    | Returned

  /** Where one shutdown call stands. */
  datatype Call = Called | Stopping(p: nat) | Done

  datatype State = State(
    procs: seq<Proc>,
    sidecar: Option<nat>,
    stopping: bool,
    cancelled: bool,
    watcher: Watcher,
    backoff: int,
    calls: seq<Call>)

  datatype Action =
    | Invoke               // somebody calls shutdown
    | Take(i: nat)         // critical section of shutdown call i
    | Finish(i: nat)       // proc.stop returns in shutdown call i
    | Watch(choice: bool)  // the watcher moves; `choice` resolves timers and outcomes
    | BeginWait(p: nat)    // somebody inside wait enters the Once
    | EndWait(p: nat)      // cmd.Wait returns
    | Die(p: nat)          // the process exits, crashes or is killed
    | Cancel               // the context is cancelled

  /** The hub as created around the bootstrapped process, whose log startSidecar has left open, or the
      placeholder; without supervision no watcher runs. */
  predicate Init(s: State) {
    && |s.procs| == 1
    && s.procs[0].once == Untouched && s.procs[0].waits == 0
    && (s.procs[0].alive ==> s.procs[0].command) && (s.procs[0].logOpen <==> s.procs[0].command)
    && s.sidecar == Some(0) && !s.stopping
    && (s.watcher == Top || s.watcher == Returned)
    && s.backoff == SECOND && s.calls == []
  }

  // ---- steps ----

  /** proc.stop may return: nothing to stop, or the process was waited for. */
  predicate Stopped(p: Proc) {
    !p.command || p.once == Finished
  }

  /** Somebody is inside proc.wait for `p`. */
  predicate SomeoneWaits(s: State, p: nat) {
    || s.watcher == Waiting(p) || s.watcher == Discarding(p) || s.watcher == Rejecting(p)
    || exists i :: 0 <= i < |s.calls| && s.calls[i] == Stopping(p)
  }

  predicate WatchEnabled(s: State, choice: bool) {
    match s.watcher
    case Idle => choice || s.cancelled
    case Backoff => choice || s.cancelled
    case Waiting(p) => p < |s.procs| && s.procs[p].once == Finished
    case Exited(p) => p < |s.procs|
    case Discarding(p) => p < |s.procs| && Stopped(s.procs[p])
    case Rejecting(p) => p < |s.procs| && Stopped(s.procs[p])
    case Returned => false
    case _ => true
  }

  predicate Enabled(s: State, a: Action) {
    match a
    case Invoke => true
    case Take(i) => i < |s.calls| && s.calls[i] == Called
    case Finish(i) => i < |s.calls| && s.calls[i].Stopping? && s.calls[i].p < |s.procs| && Stopped(s.procs[s.calls[i].p])
    case Watch(choice) => WatchEnabled(s, choice)
    case BeginWait(p) => p < |s.procs| && s.procs[p].command && s.procs[p].once == Untouched && SomeoneWaits(s, p)
    case EndWait(p) => p < |s.procs| && s.procs[p].once == Running && !s.procs[p].alive
    case Die(p) => p < |s.procs|
    case Cancel => true
  }

  function CloseLog(procs: seq<Proc>, p: nat): seq<Proc>
    requires p < |procs|
  {
    procs[p := procs[p].(logOpen := false)]
  }

  /** The delay after a failed restart. */
  function Longer(backoff: int): int {
    if backoff < MAX_BACKOFF then
      if backoff * 2 > MAX_BACKOFF then MAX_BACKOFF else backoff * 2
    else backoff
  }

  function WatchStep(s: State, choice: bool): State
    requires WatchEnabled(s, choice)
  {
    match s.watcher
    case Top =>
      if s.stopping || s.cancelled then s.(watcher := Returned)
      else if s.sidecar.None? || s.sidecar.value >= |s.procs| || !s.procs[s.sidecar.value].command then s.(watcher := Idle)
      else s.(watcher := Waiting(s.sidecar.value))
    case Idle => s.(watcher := if choice then Top else Returned)
    case Waiting(p) => s.(watcher := Exited(p))
    case Exited(p) =>
      if s.stopping || s.cancelled then s.(watcher := Returned)
      else s.(sidecar := if s.sidecar == Some(p) then None else s.sidecar,
              procs := CloseLog(s.procs, p), watcher := Backoff)
    case Backoff => s.(watcher := if choice then Recheck else Returned)
    case Recheck => s.(watcher := if s.stopping then Returned else Starting)
    case Starting =>
      if choice && !s.cancelled then s.(procs := s.procs + [Proc(true, true, true, Untouched, 0)], watcher := Probing(|s.procs|))
      else s.(watcher := Top, backoff := Longer(s.backoff))
    case Probing(p) => s.(watcher := if choice then Installing(p) else Discarding(p))
    case Discarding(p) => s.(procs := CloseLog(s.procs, p), watcher := Top, backoff := Longer(s.backoff))
    case Installing(p) =>
      if s.stopping then s.(watcher := Rejecting(p))
      else s.(sidecar := Some(p), backoff := SECOND, watcher := Top)
    case Rejecting(p) => s.(procs := CloseLog(s.procs, p), watcher := Returned)
  }

  function Apply(s: State, a: Action): State
    requires Enabled(s, a)
  {
    match a
    case Invoke => s.(calls := s.calls + [Called])
    case Take(i) =>
      s.(stopping := true, sidecar := None,
         calls := s.calls[i := if s.sidecar.Some? then Stopping(s.sidecar.value) else Done])
    case Finish(i) => s.(procs := CloseLog(s.procs, s.calls[i].p), calls := s.calls[i := Done])
    case Watch(choice) => WatchStep(s, choice)
    case BeginWait(p) => s.(procs := s.procs[p := s.procs[p].(once := Running, waits := s.procs[p].waits + 1)])
    case EndWait(p) => s.(procs := s.procs[p := s.procs[p].(once := Finished)])
    case Die(p) => s.(procs := s.procs[p := s.procs[p].(alive := false)])
    case Cancel => s.(cancelled := true)
  }

  // ---- runs ----

  predicate Runs(s: State, run: seq<Action>)
    decreases |run|
  {
    run == [] || (Enabled(s, run[0]) && Runs(Apply(s, run[0]), run[1..]))
  }

  function Final(s: State, run: seq<Action>): State
    requires Runs(s, run)
    decreases |run|
  {
    if run == [] then s else Final(Apply(s, run[0]), run[1..])
  }

  // ---- the invariant ----

  /** The watcher is between giving up one process and installing the next. */
  predicate Restarting(w: Watcher) {
    w.Backoff? || w.Recheck? || w.Starting? || w.Probing? || w.Discarding? || w.Installing? || w.Rejecting?
  }

  /** Somebody is responsible for stopping process `p`. */
  predicate Held(s: State, p: nat) {
    || s.sidecar == Some(p)
    || s.watcher == Probing(p) || s.watcher == Discarding(p)
    || s.watcher == Installing(p) || s.watcher == Rejecting(p)
    || exists i :: 0 <= i < |s.calls| && s.calls[i] == Stopping(p)
  }

  predicate WatcherInv(s: State)
    requires |s.procs| > 0
  {
    var last := |s.procs| - 1;
    match s.watcher
    case Waiting(p) => p == last && s.procs[p].command
    case Exited(p) => p == last && s.procs[p].once == Finished
    case Backoff => !s.procs[last].alive && !s.procs[last].logOpen
    case Recheck => !s.procs[last].alive && !s.procs[last].logOpen
    case Starting => !s.procs[last].alive && !s.procs[last].logOpen
    case Probing(p) => p == last && s.procs[p].command
    case Discarding(p) => p == last && s.procs[p].command
    case Installing(p) => p == last && s.procs[p].command
    case Rejecting(p) => p == last && s.procs[p].command && s.stopping
    case _ => true
  }

  predicate ProcInv(p: Proc) {
    && (p.once == Finished ==> !p.alive)
    && p.waits == (if p.once == Untouched then 0 else 1)
    && (!p.command ==> !p.alive && !p.logOpen)
  }

  predicate Inv(s: State)
    requires |s.procs| > 0
  {
    var last := |s.procs| - 1;
    && (forall i :: 0 <= i < |s.procs| ==> ProcInv(s.procs[i]))
    && (forall i :: 0 <= i < last ==> !s.procs[i].alive && !s.procs[i].logOpen)
    && (s.procs[last].alive || s.procs[last].logOpen ==> Held(s, last))
    && (s.sidecar.Some? ==> s.sidecar.value == last && !s.stopping && !Restarting(s.watcher))
    && (forall i :: 0 <= i < |s.calls| ==>
          (s.calls[i] != Called ==> s.stopping)
          && (s.calls[i].Stopping? ==> s.calls[i].p == last && !Restarting(s.watcher)))
    && WatcherInv(s)
    && (s.backoff == SECOND || (s.backoff == 2 * SECOND && Stuck(s)))
  }

  /** Nothing is owned and the watcher is idling or gone. */
  predicate Stuck(s: State) {
    s.sidecar.None? && (s.watcher.Top? || s.watcher.Idle? || s.watcher.Returned?)
  }

  lemma InitInv(s: State)
    requires Init(s)
    ensures |s.procs| > 0 && Inv(s)
  {
  }

  lemma CallInv(s: State, a: Action)
    requires |s.procs| > 0 && Inv(s) && Enabled(s, a)
    requires a.Invoke? || a.Take? || a.Finish?
    ensures Inv(Apply(s, a))
  {
    var t := Apply(s, a);
    var last := |s.procs| - 1;
    if (t.procs[last].alive || t.procs[last].logOpen) && s.sidecar == Some(last) && a.Take? {
      assert t.calls[a.i] == Stopping(last);
    } else if j :| 0 <= j < |s.calls| && s.calls[j] == Stopping(last) {
      if j < |t.calls| && t.calls[j] == Stopping(last) {
      }
    }
  }

  /** A process may die and be waited for; it keeps its kind and its log file. */
  lemma ProcUpdateInv(s: State, p: nat, q: Proc)
    requires |s.procs| > 0 && Inv(s) && p < |s.procs| && ProcInv(q)
    requires q.command == s.procs[p].command && q.logOpen == s.procs[p].logOpen && (q.alive ==> s.procs[p].alive)
    requires s.procs[p].once == Finished ==> q.once == Finished
    ensures Inv(s.(procs := s.procs[p := q]))
  {
    var t := s.(procs := s.procs[p := q]);
    assert WatcherInv(t);
    assert forall i: nat :: Held(s, i) ==> Held(t, i);
  }

  lemma ProcStepInv(s: State, a: Action)
    requires |s.procs| > 0 && Inv(s) && Enabled(s, a)
    requires a.BeginWait? || a.EndWait? || a.Die? || a.Cancel?
    ensures |Apply(s, a).procs| > 0 && Inv(Apply(s, a))
  {
    if !a.Cancel? {
      ProcUpdateInv(s, a.p, Apply(s, a).procs[a.p]);
    }
  }

  lemma {:induction false} WatchInv(s: State, choice: bool)
    requires |s.procs| > 0 && Inv(s) && WatchEnabled(s, choice)
    ensures |WatchStep(s, choice).procs| > 0 && Inv(WatchStep(s, choice))
  {
    match s.watcher
    case Exited(_) => WatchExitedInv(s, choice);
    case Starting => WatchStartingInv(s, choice);
    case Discarding(_) => WatchStoppedInv(s, choice);
    case Rejecting(_) => WatchStoppedInv(s, choice);
    case Installing(_) => WatchInstallingInv(s, choice);
    case _ => WatchMovesInv(s, choice);
  }

  /** The moves that change nothing but the watcher's own position. */
  lemma WatchMovesInv(s: State, choice: bool)
    requires |s.procs| > 0 && Inv(s) && WatchEnabled(s, choice)
    requires s.watcher.Top? || s.watcher.Idle? || s.watcher.Waiting? || s.watcher.Backoff? || s.watcher.Recheck? || s.watcher.Probing?
    ensures Inv(WatchStep(s, choice))
  {
  }

  lemma WatchExitedInv(s: State, choice: bool)
    requires |s.procs| > 0 && Inv(s) && WatchEnabled(s, choice) && s.watcher.Exited?
    ensures Inv(WatchStep(s, choice))
  {
  }

  lemma WatchStartingInv(s: State, choice: bool)
    requires |s.procs| > 0 && Inv(s) && WatchEnabled(s, choice) && s.watcher.Starting?
    ensures |WatchStep(s, choice).procs| > 0 && Inv(WatchStep(s, choice))
  {
  }

  lemma WatchStoppedInv(s: State, choice: bool)
    requires |s.procs| > 0 && Inv(s) && WatchEnabled(s, choice) && (s.watcher.Discarding? || s.watcher.Rejecting?)
    ensures Inv(WatchStep(s, choice))
  {
  }

  lemma WatchInstallingInv(s: State, choice: bool)
    requires |s.procs| > 0 && Inv(s) && WatchEnabled(s, choice) && s.watcher.Installing?
    ensures Inv(WatchStep(s, choice))
  {
  }

  lemma {:induction false} StepInv(s: State, a: Action)
    requires |s.procs| > 0 && Inv(s) && Enabled(s, a)
    ensures |Apply(s, a).procs| > 0 && Inv(Apply(s, a))
  {
    match a
    case Watch(choice) => WatchInv(s, choice);
    case Invoke => CallInv(s, a);
    case Take(_) => CallInv(s, a);
    case Finish(_) => CallInv(s, a);
    case _ => ProcStepInv(s, a);
  }

  lemma {:induction false} RunInv(s: State, run: seq<Action>)
    requires |s.procs| > 0 && Inv(s) && Runs(s, run)
    ensures |Final(s, run).procs| > 0 && Inv(Final(s, run))
    decreases |run|
  {
    if run != [] {
      StepInv(s, run[0]);
      RunInv(Apply(s, run[0]), run[1..]);
    }
  }

  // ---- what every run keeps ----

  ghost predicate Reachable(s: State) {
    exists s0: State, run: seq<Action> :: Init(s0) && Runs(s0, run) && Final(s0, run) == s
  }

  lemma ReachableInv(s: State)
    requires Reachable(s)
    ensures |s.procs| > 0 && Inv(s)
  {
    var s0: State, run: seq<Action> :| Init(s0) && Runs(s0, run) && Final(s0, run) == s;
    InitInv(s0);
    RunInv(s0, run);
  }

  /** At most one process is alive, somebody is responsible for it, and cmd.Wait runs at most once per process. */
  lemma AtMostOneAlive(s: State, i: nat, j: nat)
    requires Reachable(s) && i < |s.procs| && j < |s.procs|
    ensures s.procs[i].alive && s.procs[j].alive ==> i == j
    ensures s.procs[i].alive ==> Held(s, i)
    ensures s.procs[i].waits <= 1
  {
    ReachableInv(s);
  }

  /** Once a shutdown took the slot, no call is inside stop and the watcher is gone, every process
      ever started is dead and every log file is closed. */
  lemma NothingSurvivesShutdown(s: State, i: nat)
    requires Reachable(s) && i < |s.procs|
    requires s.stopping && s.watcher.Returned? && forall c :: c in s.calls ==> !c.Stopping?
    ensures !s.procs[i].alive && !s.procs[i].logOpen
  {
    ReachableInv(s);
  }

  /** Without a shutdown a live process outlasts the watcher only inside the slot. */
  lemma SurvivorIsInTheSlot(s: State, i: nat)
    requires Reachable(s) && i < |s.procs| && s.procs[i].alive && s.watcher.Returned?
    ensures !s.stopping ==> s.sidecar == Some(i)
    ensures s.stopping ==> exists k :: 0 <= k < |s.calls| && s.calls[k] == Stopping(i)
  {
    ReachableInv(s);
  }

  /** A launch is still possible: the watcher looked at `stopping` before shutdown did its work. */
  function LaunchesLeft(s: State): nat {
    if s.watcher.Starting? && !s.cancelled then 1 else 0
  }

  /** After the first shutdown took the lock the slot stays empty, and only a launch that was
      already past its check can still happen. */
  lemma {:induction false} StoppingIsForever(s: State, run: seq<Action>)
    requires Reachable(s) && s.stopping && Runs(s, run)
    ensures Final(s, run).stopping && Final(s, run).sidecar.None?
    ensures |s.procs| <= |Final(s, run).procs| <= |s.procs| + LaunchesLeft(s)
  {
    ReachableInv(s);
    StoppingIsForeverFrom(s, run);
  }

  lemma {:induction false} StoppingIsForeverFrom(s: State, run: seq<Action>)
    requires |s.procs| > 0 && Inv(s) && s.stopping && Runs(s, run)
    ensures Final(s, run).stopping && Final(s, run).sidecar.None?
    ensures |s.procs| <= |Final(s, run).procs| <= |s.procs| + LaunchesLeft(s)
    decreases |run|
  {
    if run != [] {
      var t := Apply(s, run[0]);
      StepInv(s, run[0]);
      assert t.stopping && |t.procs| + LaunchesLeft(t) <= |s.procs| + LaunchesLeft(s);
      StoppingIsForeverFrom(t, run[1..]);
    }
  }

  /** The step by which a restart fails: cmd.Start and what precedes it, or the health check. */
  predicate RestartFails(s: State, choice: bool) {
    WatchEnabled(s, choice) && ((s.watcher.Starting? && (!choice || s.cancelled)) || s.watcher.Discarding?)
  }

  /** After one failed restart the slot stays empty and no process is ever started again. */
  lemma FailedRestartIsFinal(s: State, choice: bool, run: seq<Action>)
    requires Reachable(s) && RestartFails(s, choice) && Runs(WatchStep(s, choice), run)
    ensures Final(WatchStep(s, choice), run).sidecar.None?
    ensures |Final(WatchStep(s, choice), run).procs| == |s.procs|
  {
    ReachableInv(s);
    StuckIsForever(WatchStep(s, choice), run);
  }

  lemma {:induction false} StuckIsForever(s: State, run: seq<Action>)
    requires Stuck(s) && Runs(s, run)
    ensures Stuck(Final(s, run)) && |Final(s, run).procs| == |s.procs|
    decreases |run|
  {
    if run != [] {
      StuckIsForever(Apply(s, run[0]), run[1..]);
    }
  }

  // ---- a restart yields a running process ----

  /** A process of the run's first state, or one started later, is alive in the end exactly when it was
      alive at first, or started, and never died. */
  lemma {:induction false} AliveIffNotDied(s: State, run: seq<Action>, p: nat)
    requires Runs(s, run) && p < |Final(s, run).procs|
    ensures Final(s, run).procs[p].alive <==> Die(p) !in run && (p < |s.procs| ==> s.procs[p].alive)
    ensures Final(s, run).procs[p].command == (p < |s.procs| ==> s.procs[p].command)
    decreases |run|
  {
    if run != [] {
      var t := Apply(s, run[0]);
      AliveIffNotDied(t, run[1..], p);
      assert run == [run[0]] + run[1..];
      if p < |t.procs| {
        AliveStep(s, run[0], p);
      } else {
        NoDeathBeforeLaunch(s, run[0], p);
      }
    }
  }

  lemma AliveStep(s: State, a: Action, p: nat)
    requires Enabled(s, a) && p < |Apply(s, a).procs|
    ensures Apply(s, a).procs[p].alive <==> a != Die(p) && (p < |s.procs| ==> s.procs[p].alive)
    ensures Apply(s, a).procs[p].command == (p < |s.procs| ==> s.procs[p].command)
  {
  }

  lemma NoDeathBeforeLaunch(s: State, a: Action, p: nat)
    requires Enabled(s, a) && p >= |Apply(s, a).procs|
    ensures a != Die(p) && p >= |s.procs|
  {
  }

  /** Process p is probed, being installed, in the slot, or about to be stopped by the watcher. */
  predicate InUse(s: State, p: nat) {
    s.sidecar == Some(p) || s.watcher == Probing(p) || s.watcher == Installing(p) || s.watcher == Discarding(p) || s.watcher == Rejecting(p)
  }

  predicate LogInv(s: State)
    requires |s.procs| > 0
  {
    var last := |s.procs| - 1;
    InUse(s, last) && s.procs[last].command ==> s.procs[last].logOpen
  }

  lemma LogStep(s: State, a: Action)
    requires |s.procs| > 0 && Inv(s) && LogInv(s) && Enabled(s, a)
    ensures |Apply(s, a).procs| > 0 && LogInv(Apply(s, a))
  {
    if a.Watch? {
      LogWatch(s, a.choice);
    }
  }

  lemma LogWatch(s: State, choice: bool)
    requires |s.procs| > 0 && Inv(s) && LogInv(s) && WatchEnabled(s, choice)
    ensures |WatchStep(s, choice).procs| > 0 && LogInv(WatchStep(s, choice))
  {
  }

  lemma {:induction false} LogRun(s: State, run: seq<Action>)
    requires |s.procs| > 0 && Inv(s) && LogInv(s) && Runs(s, run)
    ensures |Final(s, run).procs| > 0 && LogInv(Final(s, run))
    decreases |run|
  {
    if run != [] {
      StepInv(s, run[0]);
      LogStep(s, run[0]);
      LogRun(Apply(s, run[0]), run[1..]);
    }
  }

  /** As long as a process is probed, being installed or in the slot its log is open. */
  lemma LogStaysOpen(s: State, p: nat)
    requires Reachable(s) && p < |s.procs| && s.procs[p].command
    requires s.sidecar == Some(p) || s.watcher == Probing(p) || s.watcher == Installing(p)
    ensures s.procs[p].logOpen
  {
    ReachableInv(s);
    var s0: State, run: seq<Action> :| Init(s0) && Runs(s0, run) && Final(s0, run) == s;
    InitInv(s0);
    LogRun(s0, run);
  }

  // ---- when a restart is still possible ----

  /** Some continuation starts a process. */
  ghost predicate CanStart(s: State, n: nat) {
    exists run: seq<Action> :: Runs(s, run) && |Final(s, run).procs| > n
  }

  /** A real process sits in the slot. */
  predicate OwnsProcess(s: State) {
    s.sidecar.Some? && s.sidecar.value < |s.procs| && s.procs[s.sidecar.value].command
  }

  /** Nobody cancelled, and the watcher is about to launch; or it is on its way there, or has or is
      about to install a process whose exit it will notice, and nobody has begun to shut down either. */
  predicate Restartable(s: State) {
    match s.watcher
    case Starting => !s.cancelled
    case Backoff => !s.stopping && !s.cancelled
    case Recheck => !s.stopping && !s.cancelled
    case Waiting(_) => !s.stopping && !s.cancelled
    case Exited(_) => !s.stopping && !s.cancelled
    case Probing(_) => !s.stopping && !s.cancelled
    case Installing(_) => !s.stopping && !s.cancelled
    case Top => !s.stopping && !s.cancelled && OwnsProcess(s)
    case Idle => !s.stopping && !s.cancelled && OwnsProcess(s)
    case _ => false
  }

  lemma NotRestartableStep(s: State, a: Action)
    requires |s.procs| > 0 && Inv(s) && Enabled(s, a) && !Restartable(s)
    ensures !Restartable(Apply(s, a)) && |Apply(s, a).procs| == |s.procs|
  {
  }

  lemma {:induction false} NotRestartableRun(s: State, run: seq<Action>)
    requires |s.procs| > 0 && Inv(s) && Runs(s, run) && !Restartable(s)
    ensures |Final(s, run).procs| == |s.procs|
    decreases |run|
  {
    if run != [] {
      StepInv(s, run[0]);
      NotRestartableStep(s, run[0]);
      NotRestartableRun(Apply(s, run[0]), run[1..]);
    }
  }

  lemma CanStartBefore(s: State, a: Action, n: nat)
    requires Enabled(s, a) && CanStart(Apply(s, a), n)
    ensures CanStart(s, n)
  {
    var run: seq<Action> :| Runs(Apply(s, a), run) && |Final(Apply(s, a), run).procs| > n;
    assert ([a] + run)[1..] == run;
    assert Runs(s, [a] + run);
  }

  lemma StartingCanStart(s: State)
    requires s.watcher.Starting? && !s.cancelled
    ensures CanStart(s, |s.procs|)
  {
    var t := Apply(s, Watch(true));
    assert Runs(t, []) && |Final(t, []).procs| > |s.procs|;
    CanStartBefore(s, Watch(true), |s.procs|);
  }

  lemma BackoffCanStart(s: State)
    requires (s.watcher.Backoff? || s.watcher.Recheck?) && !s.stopping && !s.cancelled
    ensures CanStart(s, |s.procs|)
    decreases s.watcher.Backoff?
  {
    var t := Apply(s, Watch(true));
    if s.watcher.Backoff? {
      BackoffCanStart(t);
    } else {
      StartingCanStart(t);
    }
    CanStartBefore(s, Watch(true), |s.procs|);
  }

  lemma ExitedCanStart(s: State)
    requires s.watcher.Exited? && s.watcher.p < |s.procs| && !s.stopping && !s.cancelled
    ensures CanStart(s, |s.procs|)
  {
    BackoffCanStart(Apply(s, Watch(true)));
    CanStartBefore(s, Watch(true), |s.procs|);
  }

  /** The process the watcher waits for may die and be waited for. */
  lemma WaitingCanStart(s: State)
    requires s.watcher.Waiting? && s.watcher.p < |s.procs| && s.procs[s.watcher.p].command && !s.stopping && !s.cancelled
    ensures CanStart(s, |s.procs|)
    decreases OnceRank(s.procs[s.watcher.p].once), s.procs[s.watcher.p].alive
  {
    var p := s.watcher.p;
    var a := match s.procs[p].once
      case Untouched => BeginWait(p)
      case Running => if s.procs[p].alive then Die(p) else EndWait(p)
      case Finished => Watch(true);
    assert SomeoneWaits(s, p);
    if s.procs[p].once.Finished? {
      ExitedCanStart(Apply(s, a));
    } else {
      WaitingCanStart(Apply(s, a));
    }
    CanStartBefore(s, a, |s.procs|);
  }

  lemma TopCanStart(s: State)
    requires s.watcher.Top? || s.watcher.Idle?
    requires !s.stopping && !s.cancelled && OwnsProcess(s)
    ensures CanStart(s, |s.procs|)
    decreases s.watcher.Idle?
  {
    var t := Apply(s, Watch(true));
    if s.watcher.Idle? {
      TopCanStart(t);
    } else {
      WaitingCanStart(t);
    }
    CanStartBefore(s, Watch(true), |s.procs|);
  }

  lemma InstallingCanStart(s: State)
    requires s.watcher.Probing? || s.watcher.Installing?
    requires s.watcher.p < |s.procs| && s.procs[s.watcher.p].command && !s.stopping && !s.cancelled
    ensures CanStart(s, |s.procs|)
    decreases s.watcher.Probing?
  {
    var t := Apply(s, Watch(true));
    if s.watcher.Probing? {
      InstallingCanStart(t);
    } else {
      TopCanStart(t);
    }
    CanStartBefore(s, Watch(true), |s.procs|);
  }

  lemma RestartableCanStart(s: State)
    requires |s.procs| > 0 && Inv(s) && Restartable(s)
    ensures CanStart(s, |s.procs|)
  {
    match s.watcher
    case Starting => StartingCanStart(s);
    case Backoff => BackoffCanStart(s);
    case Recheck => BackoffCanStart(s);
    case Waiting(_) => WaitingCanStart(s);
    case Exited(_) => ExitedCanStart(s);
    case Probing(_) => InstallingCanStart(s);
    case Installing(_) => InstallingCanStart(s);
    case _ => TopCanStart(s);
  }

  /** From a reachable state a process can still be started exactly when the watcher has one to wait
      for, or is on its way to a launch, and no shutdown or cancellation stands in between. */
  lemma RestartPossibleIff(s: State)
    requires Reachable(s)
    ensures CanStart(s, |s.procs|) <==> Restartable(s)
  {
    ReachableInv(s);
    if Restartable(s) {
      RestartableCanStart(s);
    } else {
      forall run: seq<Action> | Runs(s, run) ensures |Final(s, run).procs| == |s.procs| {
        NotRestartableRun(s, run);
      }
    }
  }

  /** After a cancellation no process is ever started. */
  lemma {:induction false} CancelIsForever(s: State, run: seq<Action>)
    requires Reachable(s) && s.cancelled && Runs(s, run)
    ensures |Final(s, run).procs| == |s.procs|
  {
    ReachableInv(s);
    NotRestartableRun(s, run);
  }

  /** Cancelling does it, whatever was going on. */
  lemma {:induction false} CancelStopsLaunches(s: State, run: seq<Action>)
    requires Reachable(s) && Runs(Apply(s, Cancel), run)
    ensures |Final(Apply(s, Cancel), run).procs| == |s.procs|
  {
    ReachableStep(s, Cancel);
    CancelIsForever(Apply(s, Cancel), run);
  }

  /** Calling shutdown can take the slot at once: from then on nothing is owned, a shutdown is on
      record, and what the slot held is being stopped. */
  lemma ShutdownTakesSlot(s: State)
    requires Reachable(s)
    ensures var (t, n) := (Apply(s, Invoke), |s.calls|);
      && Enabled(t, Take(n))
      && var u := Apply(t, Take(n));
         && Reachable(u) && u.stopping && u.sidecar.None? && n < |u.calls|
         && u.calls[n] == if s.sidecar.Some? then Stopping(s.sidecar.value) else Done
  {
    ReachableStep(s, Invoke);
    ReachableStep(Apply(s, Invoke), Take(|s.calls|));
  }

  lemma ReachableStep(s: State, a: Action)
    requires Reachable(s) && Enabled(s, a)
    ensures Reachable(Apply(s, a))
  {
    var s0: State, run: seq<Action> :| Init(s0) && Runs(s0, run) && Final(s0, run) == s;
    RunAppend(s0, run, a);
    assert Runs(s0, run + [a]);
  }

  lemma {:induction false} RunAppend(s: State, run: seq<Action>, a: Action)
    requires Runs(s, run) && Enabled(Final(s, run), a)
    ensures Runs(s, run + [a]) && Final(s, run + [a]) == Apply(Final(s, run), a)
    decreases |run|
  {
    if run == [] {
      assert run + [a] == [a] && [a][1..] == [];
    } else {
      RunAppend(Apply(s, run[0]), run[1..], a);
      assert (run + [a])[1..] == run[1..] + [a];
    }
  }

  lemma InitReachable(s: State)
    requires Init(s)
    ensures Reachable(s)
  {
    assert Runs(s, []) && Final(s, []) == s;
  }

  /** The supervised hub around a process that is alive. */
  function Fresh(): State {
    State([Proc(true, true, true, Untouched, 0)], Some(0), false, false, Top, SECOND, [])
  }

  /** A crash after which the restart fails, although nobody shuts down or cancels: the watcher then
      idles and nothing is started again. */
  lemma RestartFailsOnce() returns (s: State)
    ensures Reachable(s) && RestartFails(s, false) && !s.stopping && !s.cancelled
    ensures var t := WatchStep(s, false);
      Reachable(t) && !t.stopping && !t.cancelled && t.backoff == 2 * SECOND && !CanStart(t, |t.procs|)
  {
    s := CrashAndBackoff();
    ReachableStep(s, Watch(false));
    RestartPossibleIff(WatchStep(s, false));
  }

  lemma Follow(s: State, a: Action) returns (t: State)
    requires Reachable(s) && Enabled(s, a)
    ensures t == Apply(s, a) && Reachable(t)
  {
    t := Apply(s, a);
    ReachableStep(s, a);
  }

  lemma CrashAndBackoff() returns (s: State)
    ensures Reachable(s) && s.watcher == Starting && |s.procs| == 1 && !s.procs[0].alive
    ensures s.sidecar.None? && !s.stopping && !s.cancelled && s.calls == [] && s.backoff == SECOND
  {
    s := Fresh();
    InitReachable(s);
    s := Follow(s, Watch(true));
    assert s.watcher == Waiting(0);
    s := Follow(s, BeginWait(0));
    s := Follow(s, Die(0));
    s := Follow(s, EndWait(0));
    s := Follow(s, Watch(true));
    s := Follow(s, Watch(true));
    s := Follow(s, Watch(true));
    s := Follow(s, Watch(true));
  }

  /** A crash after which the restart succeeds: the slot holds a second process, alive and with an open
      log, and the watcher goes on. */
  lemma RestartSucceeds() returns (s: State)
    ensures Reachable(s) && |s.procs| == 2 && s.sidecar == Some(1) && s.watcher == Top
    ensures !s.procs[0].alive && s.procs[1].command && s.procs[1].alive && s.procs[1].logOpen && s.backoff == SECOND
  {
    s := CrashAndBackoff();
    s := Follow(s, Watch(true));
    assert s.watcher == Probing(1);
    s := Follow(s, Watch(true));
    s := Follow(s, Watch(true));
  }

  /** A hub around the placeholder of --no-sidecar never starts anything, with no failure at all. */
  lemma PlaceholderStartsNothing(s: State, run: seq<Action>)
    requires Init(s) && !s.procs[0].command && Runs(s, run)
    ensures |Final(s, run).procs| == 1
  {
    InitInv(s);
    NotRestartableRun(s, run);
  }

  /** Hence the delay is doubled at most once and the 30 s cap is never reached. */
  lemma BackoffIsOneOrTwoSeconds(s: State)
    requires Reachable(s)
    ensures s.backoff == SECOND || s.backoff == 2 * SECOND
    ensures s.backoff == 2 * SECOND ==> Stuck(s)
    ensures s.backoff < MAX_BACKOFF
  {
    ReachableInv(s);
  }

  // ---- shutdown completes ----

  function OnceRank(o: Once): nat {
    match o case Untouched => 2 case Running => 1 case Finished => 0
  }

  function ProcsRank(procs: seq<Proc>): nat {
    if procs == [] then 0 else OnceRank(procs[0].once) + ProcsRank(procs[1..])
  }

  function CallRank(c: Call): nat {
    match c case Called => 2 case Stopping(_) => 1 case Done => 0
  }

  function CallsRank(calls: seq<Call>): nat {
    if calls == [] then 0 else CallRank(calls[0]) + CallsRank(calls[1..])
  }

  function WatchRank(w: Watcher): nat {
    match w
    case Top => 1
    case Idle => 2
    case Waiting(_) => 2
    case Exited(_) => 1
    case Backoff => 2
    case Recheck => 1
    case Starting => 6
    case Probing(_) => 3
    case Discarding(_) => 2
    case Installing(_) => 2
    case Rejecting(_) => 1
    case Returned => 0
  }

  function Rank(s: State): nat {
    WatchRank(s.watcher) + CallsRank(s.calls) + ProcsRank(s.procs)
  }

  predicate IsWork(a: Action) {
    a.Take? || a.Finish? || a.Watch? || a.BeginWait? || a.EndWait?
  }

  function Work(run: seq<Action>): nat {
    if run == [] then 0 else (if IsWork(run[0]) then 1 else 0) + Work(run[1..])
  }

  function Invokes(run: seq<Action>): nat {
    if run == [] then 0 else (if run[0].Invoke? then 1 else 0) + Invokes(run[1..])
  }

  lemma {:induction false} ProcsRankUpdate(procs: seq<Proc>, i: nat, p: Proc)
    requires i < |procs|
    ensures ProcsRank(procs[i := p]) == ProcsRank(procs) - OnceRank(procs[i].once) + OnceRank(p.once)
  {
    if i == 0 {
      assert procs[i := p][1..] == procs[1..];
    } else {
      ProcsRankUpdate(procs[1..], i - 1, p);
      assert procs[i := p][1..] == procs[1..][i - 1 := p];
    }
  }

  lemma {:induction false} ProcsRankAppend(procs: seq<Proc>, p: Proc)
    ensures ProcsRank(procs + [p]) == ProcsRank(procs) + OnceRank(p.once)
  {
    if procs != [] {
      ProcsRankAppend(procs[1..], p);
      assert (procs + [p])[1..] == procs[1..] + [p];
    } else {
      assert (procs + [p])[1..] == [];
    }
  }

  lemma {:induction false} CallsRankUpdate(calls: seq<Call>, i: nat, c: Call)
    requires i < |calls|
    ensures CallsRank(calls[i := c]) == CallsRank(calls) - CallRank(calls[i]) + CallRank(c)
  {
    if i == 0 {
      assert calls[i := c][1..] == calls[1..];
    } else {
      CallsRankUpdate(calls[1..], i - 1, c);
      assert calls[i := c][1..] == calls[1..][i - 1 := c];
    }
  }

  lemma {:induction false} CallsRankAppend(calls: seq<Call>, c: Call)
    ensures CallsRank(calls + [c]) == CallsRank(calls) + CallRank(c)
  {
    if calls != [] {
      CallsRankAppend(calls[1..], c);
      assert (calls + [c])[1..] == calls[1..] + [c];
    } else {
      assert (calls + [c])[1..] == [];
    }
  }

  lemma StepRank(s: State, a: Action)
    requires |s.procs| > 0 && Inv(s) && s.stopping && Enabled(s, a)
    ensures Rank(Apply(s, a)) + (if IsWork(a) then 1 else 0) <= Rank(s) + (if a.Invoke? then 2 else 0)
  {
    var t := Apply(s, a);
    match a
    case Invoke => CallsRankAppend(s.calls, Called);
    case Take(i) => CallsRankUpdate(s.calls, i, t.calls[i]);
    case Finish(i) =>
      CallsRankUpdate(s.calls, i, Done);
      ProcsRankUpdate(s.procs, s.calls[i].p, t.procs[s.calls[i].p]);
    case Watch(choice) => WatchRankStep(s, choice);
    case BeginWait(p) => ProcsRankUpdate(s.procs, p, t.procs[p]);
    case EndWait(p) => ProcsRankUpdate(s.procs, p, t.procs[p]);
    case Die(p) => ProcsRankUpdate(s.procs, p, t.procs[p]);
    case Cancel =>
  }

  lemma WatchRankStep(s: State, choice: bool)
    requires |s.procs| > 0 && Inv(s) && s.stopping && WatchEnabled(s, choice)
    ensures Rank(WatchStep(s, choice)) < Rank(s)
  {
    match s.watcher
    case Starting => ProcsRankAppend(s.procs, Proc(true, true, true, Untouched, 0));
    case Exited(_) =>
    case Discarding(p) => ProcsRankUpdate(s.procs, p, WatchStep(s, choice).procs[p]);
    case Rejecting(p) => ProcsRankUpdate(s.procs, p, WatchStep(s, choice).procs[p]);
    case _ => WatchRankMoves(s, choice);
  }

  lemma WatchRankMoves(s: State, choice: bool)
    requires |s.procs| > 0 && Inv(s) && s.stopping && WatchEnabled(s, choice)
    requires !s.watcher.Starting? && !s.watcher.Exited? && !s.watcher.Discarding? && !s.watcher.Rejecting?
    ensures WatchStep(s, choice).procs == s.procs && WatchStep(s, choice).calls == s.calls
    ensures WatchRank(WatchStep(s, choice).watcher) < WatchRank(s.watcher)
  {
  }

  /** After a shutdown began, the threads together make a bounded number of moves. */
  lemma {:induction false} ShutdownWorkIsBounded(s: State, run: seq<Action>)
    requires Reachable(s) && s.stopping && Runs(s, run)
    ensures Work(run) <= Rank(s) + 2 * Invokes(run)
  {
    ReachableInv(s);
    WorkIsBounded(s, run);
  }

  lemma {:induction false} WorkIsBounded(s: State, run: seq<Action>)
    requires |s.procs| > 0 && Inv(s) && s.stopping && Runs(s, run)
    ensures Work(run) <= Rank(s) + 2 * Invokes(run)
    decreases |run|
  {
    if run != [] {
      StepInv(s, run[0]);
      StepRank(s, run[0]);
      WorkIsBounded(Apply(s, run[0]), run[1..]);
    }
  }

  /** And as long as one of them is unfinished, one can move, or the process it waits for is
      still alive, which the kill inside stop ends. */
  lemma ShutdownNeverDeadlocks(s: State)
    requires Reachable(s) && s.stopping
    requires !s.watcher.Returned? || exists i :: 0 <= i < |s.calls| && !s.calls[i].Done?
    ensures (exists a: Action :: IsWork(a) && Enabled(s, a))
         || (s.procs != [] && s.procs[|s.procs| - 1].alive && SomeoneWaits(s, |s.procs| - 1))
  {
    ReachableInv(s);
    var last := |s.procs| - 1;
    if SomeoneWaits(s, last) {
      if s.procs[last].command && s.procs[last].once == Untouched {
        assert Enabled(s, BeginWait(last));
      } else if s.procs[last].command && s.procs[last].once == Running && !s.procs[last].alive {
        assert Enabled(s, EndWait(last));
      } else if Stopped(s.procs[last]) {
        if i :| 0 <= i < |s.calls| && s.calls[i] == Stopping(last) {
          assert Enabled(s, Finish(i));
        } else {
          assert Enabled(s, Watch(true));
        }
      }
    } else if !s.watcher.Returned? {
      assert Enabled(s, Watch(true));
    } else {
      var i :| 0 <= i < |s.calls| && !s.calls[i].Done?;
      assert Enabled(s, Take(i));
    }
  }

  // ---- the code ----

  /** The hub with its processes, its watcher's program point and the shutdown calls in progress. */
  class SidecarHub {
    var procs: seq<Proc>
    var sidecar: Option<nat>
    var stopping: bool
    var cancelled: bool
    var watcher: Watcher
    var backoff: int
    var calls: seq<Call>

    function View(): State
      reads this
    {
      State(procs, sidecar, stopping, cancelled, watcher, backoff, calls)
    }

    /** newSidecarHub around the bootstrapped process, followed by `go hub.watch` when supervision is on. */
    constructor (initial: Proc, supervise: bool)
      requires initial.once == Untouched && initial.waits == 0
      requires (initial.alive ==> initial.command) && (initial.logOpen <==> initial.command)
      ensures Init(View()) && procs == [initial] && (watcher == Top <==> supervise)
    {
      procs, sidecar, stopping, cancelled := [initial], Some(0), false, false;
      watcher := if supervise then Top else Returned;
      backoff, calls := SECOND, [];
    }

    /** The critical section of shutdown call `i`. */
    method TakeSlot(i: nat)
      requires Enabled(View(), Take(i))
      modifies this
      ensures View() == Apply(old(View()), Take(i))
    {
      stopping := true;
      var proc := sidecar;
      sidecar := None;
      calls := calls[i := if proc.Some? then Stopping(proc.value) else Done];
    }

    /** proc.stop returns inside shutdown call `i`. */
    method FinishShutdown(i: nat)
      requires Enabled(View(), Finish(i))
      modifies this
      ensures View() == Apply(old(View()), Finish(i))
    {
      CloseLogOf(calls[i].p);
      calls := calls[i := Done];
    }

    method CloseLogOf(p: nat)
      requires p < |procs|
      modifies this`procs
      ensures procs == CloseLog(old(procs), p)
    {
      if procs[p].logOpen {
        procs := procs[p := procs[p].(logOpen := false)];
      }
    }

    method Lengthen()
      modifies this`backoff
      ensures backoff == Longer(old(backoff))
    {
      if backoff < MAX_BACKOFF {
        backoff := backoff * 2;
        if backoff > MAX_BACKOFF {
          backoff := MAX_BACKOFF;
        }
      }
    }

    /** One move of the watch loop. */
    method WatchOnce(choice: bool)
      requires WatchEnabled(View(), choice)
      modifies this
      ensures View() == WatchStep(old(View()), choice)
    {
      match watcher
      case Top =>
        if stopping || cancelled {
          watcher := Returned;
        } else if sidecar.None? || sidecar.value >= |procs| || !procs[sidecar.value].command {
          watcher := Idle;
        } else {
          watcher := Waiting(sidecar.value);
        }
      case Idle => watcher := if choice then Top else Returned;
      case Waiting(p) => watcher := Exited(p);
      case Exited(p) =>
        if stopping || cancelled {
          watcher := Returned;
        } else {
          if sidecar == Some(p) {
            sidecar := None;
          }
          CloseLogOf(p);
          watcher := Backoff;
        }
      case Backoff => watcher := if choice then Recheck else Returned;
      case Recheck => watcher := if stopping then Returned else Starting;
      case Starting =>
        if choice && !cancelled {
          watcher := Probing(|procs|);
          procs := procs + [Proc(true, true, true, Untouched, 0)];
        } else {
          Lengthen();
          watcher := Top;
        }
      case Probing(p) => watcher := if choice then Installing(p) else Discarding(p);
      case Discarding(p) =>
        CloseLogOf(p);
        Lengthen();
        watcher := Top;
      case Installing(p) =>
        if stopping {
          watcher := Rejecting(p);
        } else {
          sidecar := Some(p);
          backoff := SECOND;
          watcher := Top;
        }
      case Rejecting(p) =>
        CloseLogOf(p);
        watcher := Returned;
    }
  }
}
