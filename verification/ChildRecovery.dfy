/**
  What becomes of a task that nothing interferes with: spawns, stops, restarts and, above all, the
  exit watchdog, which gets a dead instance back or gives it up after three children. And what a
  watchdog holds on to when everything interferes.
 */
module ChildRecovery {
  import opened LaunchManifests
  import opened ChildProcesses

  /** Spawns, stops, restarts and watchdogs may begin at any time, each as a task of its own. */
  lemma AnyTaskMayBegin(s: Machine, spec: Spec, token: string, id: InstanceId, max: nat, task: Task)
    requires task in
               {SpawnChecking(spec, token, Once), StopRemoving(id), RestartReading(id, max, false), Watching(id, 0)}
    ensures Apply(s, Begin(task)) == s.(tasks := s.tasks[s.nextTask := task], nextTask := s.nextTask + 1)
  {
  }

  // ---- One spawn ----

  /** The check and the start of a child. */
  function StartChild(s: Machine, t: TaskId): Machine { AdvanceStep(s, t, true) }

  /** A child that becomes healthy and enters the pool. */
  function HealthySpawn(s: Machine, t: TaskId): Machine {
    AdvanceStep(AdvanceStep(StartChild(s, t), t, true), t, true)
  }

  /** A child that does not become healthy. */
  function UnhealthySpawn(s: Machine, t: TaskId): Machine { AdvanceStep(StartChild(s, t), t, false) }

  ghost predicate NumbersAreNew(s: Machine) {
    forall c :: c in s.alive || c in s.exited || c in s.killed ==> c < s.nextChild
  }

  /** Task `t` is about to spawn under an id that the pool does not hold. */
  ghost predicate MaySpawn(s: Machine, t: TaskId, spec: Spec, token: string, goal: Goal) {
    && t in s.tasks && s.tasks[t] == SpawnChecking(spec, token, goal)
    && spec.instanceId !in s.pool && NumbersAreNew(s)
  }

  /** What a spawn ends with: the child pooled, a watchdog watching again, any other caller gone. */
  function Spawned(s: Machine, t: TaskId, spec: Spec, token: string, goal: Goal): Machine {
    s.(pool := s.pool[spec.instanceId := Managed(s.nextChild, spec, token)],
       alive := s.alive + {s.nextChild}, nextChild := s.nextChild + 1,
       tasks := if goal.Restart? && goal.watched then s.tasks[t := Watching(spec.instanceId, 0)] else s.tasks - {t})
  }

  lemma HealthySpawnPools(s: Machine, t: TaskId, spec: Spec, token: string, goal: Goal)
    requires MaySpawn(s, t, spec, token, goal)
    ensures HealthySpawn(s, t) == Spawned(s, t, spec, token, goal)
  {
    var c := s.nextChild;
    var booting := StartChild(s, t);
    assert booting.tasks == s.tasks[t := SpawnBooting(spec, token, c, goal)];
    var inserting := AdvanceStep(booting, t, true);
    assert inserting.tasks == s.tasks[t := SpawnInserting(spec, token, c, goal)];
    assert inserting.tasks - {t} == s.tasks - {t};
    assert inserting.tasks[t := Watching(spec.instanceId, 0)] == s.tasks[t := Watching(spec.instanceId, 0)];
  }

  /** What it ends with when the child is not healthy: the child killed and, in a restart, a pause. */
  function Failed(s: Machine, t: TaskId, spec: Spec, token: string, goal: Goal): Machine {
    s.(killed := s.killed + {s.nextChild}, nextChild := s.nextChild + 1,
       tasks := match goal
         case Once => s.tasks - {t}
         case Restart(attempt, max, watched) => s.tasks[t := BackingOff(spec, token, attempt, max, watched)])
  }

  lemma UnhealthySpawnKills(s: Machine, t: TaskId, spec: Spec, token: string, goal: Goal)
    requires MaySpawn(s, t, spec, token, goal)
    ensures UnhealthySpawn(s, t) == Failed(s, t, spec, token, goal)
  {
    var booting := StartChild(s, t);
    assert booting.tasks == s.tasks[t := SpawnBooting(spec, token, s.nextChild, goal)];
    assert booting.alive - {s.nextChild} == s.alive;
    assert booting.tasks - {t} == s.tasks - {t};
  }

  /** A spawn whose id is taken by the time its child is healthy kills that child again and leaves
      the pool as it is. */
  lemma LateDuplicateIsKilled(s: Machine, t: TaskId)
    requires Inv(s) && t in s.tasks && s.tasks[t].SpawnInserting? && s.tasks[t].spec.instanceId in s.pool
    ensures
      var n := AdvanceStep(AdvanceStep(s, t, true), t, true);
      && n.pool == s.pool
      && s.tasks[t].child !in n.alive
      && (s.tasks[t].goal.Once? ==> t !in n.tasks)
  {
  }

  /** A spawn under an id that the pool holds starts no child; a stop or a restart of an id that it
      does not hold ends at once. */
  lemma RefusedAtOnce(s: Machine, t: TaskId, ok: bool)
    requires t in s.tasks
    ensures
      var task, n := s.tasks[t], AdvanceStep(s, t, ok);
      && (task.SpawnChecking? && task.spec.instanceId in s.pool ==>
            n == s.(tasks := match task.goal
                      case Once => s.tasks - {t}
                      case Restart(attempt, max, watched) =>
                        s.tasks[t := BackingOff(task.spec, task.token, attempt, max, watched)]))
      && ((task.StopRemoving? || task.RestartReading?) && task.id !in s.pool ==> n == s.(tasks := s.tasks - {t}))
  {
  }

  /** A stop takes the instance out of the pool, kills its child and ends. */
  lemma StopTakesDown(s: Machine, t: TaskId, id: InstanceId)
    requires Inv(s) && t in s.tasks && s.tasks[t] == StopRemoving(id) && id in s.pool
    ensures
      var n, c := AdvanceStep(AdvanceStep(s, t, true), t, true), s.pool[id].child;
      && n.pool == s.pool - {id} && n.tasks == s.tasks - {t}
      && n.alive == s.alive - {c}
      && n.killed == (if c in s.alive then s.killed + {c} else s.killed)
  {
    var removed := AdvanceStep(s, t, true);
    assert removed.tasks - {t} == s.tasks - {t};
  }

  // ---- A restart ----

  /** An attempt that fails, and the pause or the end after it. */
  function FailedAttempt(s: Machine, t: TaskId): Machine { AdvanceStep(UnhealthySpawn(s, t), t, true) }

  /** The first `n` attempts, each of them failing, and the pauses after them. */
  function Attempts(s: Machine, t: TaskId, n: nat): Machine {
    if n == 0 then s else FailedAttempt(Attempts(s, t, n - 1), t)
  }

  /** The `n` children from number `first` on. */
  function Children(first: ChildId, n: nat): set<ChildId> {
    if n == 0 then {} else Children(first, n - 1) + {first + n - 1}
  }

  lemma {:induction false} ChildrenAreNumbered(first: ChildId, n: nat, c: ChildId)
    ensures c in Children(first, n) <==> first <= c < first + n
  {
    if n > 0 { ChildrenAreNumbered(first, n - 1, c); }
  }

  /** The state after `n` failed attempts, before the next one. */
  function Tried(s: Machine, t: TaskId, spec: Spec, token: string, max: nat, watched: bool, n: nat): Machine {
    s.(killed := s.killed + Children(s.nextChild, n), nextChild := s.nextChild + n,
       tasks := s.tasks[t := SpawnChecking(spec, token, Restart(1 + n, max, watched))])
  }

  lemma TriedMaySpawn(s: Machine, t: TaskId, spec: Spec, token: string, max: nat, watched: bool, n: nat)
    requires MaySpawn(s, t, spec, token, Restart(1, max, watched))
    ensures MaySpawn(Tried(s, t, spec, token, max, watched, n), t, spec, token, Restart(1 + n, max, watched))
  {
    forall c | c in Children(s.nextChild, n) ensures c < s.nextChild + n { ChildrenAreNumbered(s.nextChild, n, c); }
  }

  lemma NextAttempt(s: Machine, t: TaskId, spec: Spec, token: string, max: nat, watched: bool, n: nat)
    requires MaySpawn(s, t, spec, token, Restart(1, max, watched)) && 1 + n < Max1(max)
    ensures FailedAttempt(Tried(s, t, spec, token, max, watched, n), t)
            == Tried(s, t, spec, token, max, watched, n + 1)
  {
    var a := Tried(s, t, spec, token, max, watched, n);
    TriedMaySpawn(s, t, spec, token, max, watched, n);
    UnhealthySpawnKills(a, t, spec, token, Restart(1 + n, max, watched));
    var f := Failed(a, t, spec, token, Restart(1 + n, max, watched));
    assert f.killed == s.killed + Children(s.nextChild, n + 1);
    assert AdvanceStep(f, t, true).tasks == s.tasks[t := SpawnChecking(spec, token, Restart(2 + n, max, watched))];
  }

  lemma {:induction false} AttemptsTry(
    s: Machine, t: TaskId, spec: Spec, token: string, max: nat, watched: bool, n: nat)
    requires MaySpawn(s, t, spec, token, Restart(1, max, watched)) && n < Max1(max)
    ensures Attempts(s, t, n) == Tried(s, t, spec, token, max, watched, n)
  {
    if n > 0 {
      AttemptsTry(s, t, spec, token, max, watched, n - 1);
      NextAttempt(s, t, spec, token, max, watched, n - 1);
    } else {
      assert s.tasks == s.tasks[t := SpawnChecking(spec, token, Restart(1, max, watched))];
      assert s.killed + {} == s.killed;
    }
  }

  /** A restart up to its first attempt: read, remove, kill. */
  function TakeDown(s: Machine, t: TaskId): Machine {
    AdvanceStep(AdvanceStep(AdvanceStep(s, t, true), t, true), t, true)
  }

  /** The state in which a restart of the instance `id` begins its first attempt. */
  function Down(s: Machine, t: TaskId, id: InstanceId, max: nat, watched: bool): Machine
    requires id in s.pool
  {
    var was := s.pool[id];
    Shutdown(s, was.child).(pool := s.pool - {id},
                            tasks := s.tasks[t := SpawnChecking(was.spec, was.token, Restart(1, max, watched))])
  }

  /** Task `t` is about to restart the pooled instance `id`. */
  ghost predicate MayRestart(s: Machine, t: TaskId, id: InstanceId, max: nat, watched: bool) {
    && t in s.tasks && s.tasks[t] == RestartReading(id, max, watched)
    && id in s.pool && s.pool[id].spec.instanceId == id && NumbersAreNew(s)
  }

  lemma TakenDown(s: Machine, t: TaskId, id: InstanceId, max: nat, watched: bool)
    requires MayRestart(s, t, id, max, watched)
    ensures TakeDown(s, t) == Down(s, t, id, max, watched)
  {
    var was := s.pool[id];
    var removing := AdvanceStep(s, t, true);
    assert removing.tasks == s.tasks[t := RestartRemoving(was.spec, was.token, max, watched)];
    var killing := AdvanceStep(removing, t, true);
    assert killing.tasks == s.tasks[t := RestartKilling(was.child, was.spec, was.token, max, watched)];
  }

  /** A restart that fails `n` times, fewer than it may, and then succeeds. */
  function RestartAlone(s: Machine, t: TaskId, n: nat): Machine { HealthySpawn(Attempts(TakeDown(s, t), t, n), t) }

  /** A restart of which all `n` attempts fail. */
  function FailAlone(s: Machine, t: TaskId, n: nat): Machine
    requires n > 0
  {
    FailedAttempt(Attempts(TakeDown(s, t), t, n - 1), t)
  }

  lemma DownMaySpawn(s: Machine, t: TaskId, id: InstanceId, max: nat, watched: bool)
    requires MayRestart(s, t, id, max, watched)
    ensures MaySpawn(Down(s, t, id, max, watched), t, s.pool[id].spec, s.pool[id].token, Restart(1, max, watched))
  {
  }

  /** The state after `n` failed attempts and a successful one. */
  function Retried(s: Machine, t: TaskId, spec: Spec, token: string, watched: bool, n: nat): Machine {
    var c := s.nextChild + n;
    s.(pool := s.pool[spec.instanceId := Managed(c, spec, token)], alive := s.alive + {c},
       killed := s.killed + Children(s.nextChild, n), nextChild := c + 1,
       tasks := if watched then s.tasks[t := Watching(spec.instanceId, 0)] else s.tasks - {t})
  }

  lemma SpawnAfterTries(s: Machine, t: TaskId, spec: Spec, token: string, max: nat, watched: bool, n: nat)
    requires MaySpawn(s, t, spec, token, Restart(1, max, watched))
    ensures Spawned(Tried(s, t, spec, token, max, watched, n), t, spec, token, Restart(1 + n, max, watched))
            == Retried(s, t, spec, token, watched, n)
  {
    var a := Tried(s, t, spec, token, max, watched, n);
    assert a.tasks - {t} == s.tasks - {t};
    assert a.tasks[t := Watching(spec.instanceId, 0)] == s.tasks[t := Watching(spec.instanceId, 0)];
  }

  lemma RetrySucceeds(s: Machine, t: TaskId, spec: Spec, token: string, max: nat, watched: bool, n: nat, a: Machine)
    requires MaySpawn(s, t, spec, token, Restart(1, max, watched))
    requires a == Tried(s, t, spec, token, max, watched, n)
    ensures HealthySpawn(a, t) == Retried(s, t, spec, token, watched, n)
  {
    TriedMaySpawn(s, t, spec, token, max, watched, n);
    HealthySpawnPools(a, t, spec, token, Restart(1 + n, max, watched));
    SpawnAfterTries(s, t, spec, token, max, watched, n);
  }

  /** The state after a restart of `id` that succeeded after `n` failures. */
  function Replaced(s: Machine, t: TaskId, id: InstanceId, watched: bool, n: nat): Machine
    requires id in s.pool
  {
    var was, c := s.pool[id], s.nextChild + n;
    var d := Shutdown(s, was.child);
    d.(pool := s.pool[id := Managed(c, was.spec, was.token)], alive := d.alive + {c},
       killed := d.killed + Children(s.nextChild, n), nextChild := c + 1,
       tasks := if watched then s.tasks[t := Watching(id, 0)] else s.tasks - {t})
  }

  lemma RetriedIsReplaced(s: Machine, t: TaskId, id: InstanceId, max: nat, watched: bool, n: nat)
    requires MayRestart(s, t, id, max, watched)
    ensures Retried(Down(s, t, id, max, watched), t, s.pool[id].spec, s.pool[id].token, watched, n)
            == Replaced(s, t, id, watched, n)
  {
    var down := Down(s, t, id, max, watched);
    var m := Managed(s.nextChild + n, s.pool[id].spec, s.pool[id].token);
    assert down.tasks - {t} == s.tasks - {t};
    assert down.tasks[t := Watching(id, 0)] == s.tasks[t := Watching(id, 0)];
    assert down.pool[id := m] == s.pool[id := m];
  }

  lemma TriedFromDown(s: Machine, t: TaskId, id: InstanceId, max: nat, watched: bool, n: nat)
    requires MayRestart(s, t, id, max, watched) && n < Max1(max)
    ensures Attempts(TakeDown(s, t), t, n)
            == Tried(Down(s, t, id, max, watched), t, s.pool[id].spec, s.pool[id].token, max, watched, n)
  {
    TakenDown(s, t, id, max, watched);
    DownMaySpawn(s, t, id, max, watched);
    AttemptsTry(Down(s, t, id, max, watched), t, s.pool[id].spec, s.pool[id].token, max, watched, n);
  }

  /** A restart that succeeds after `n` failures pools a new child under the old spec and token;
      the old child and those that failed are gone. */
  lemma RestartReplaces(s: Machine, t: TaskId, id: InstanceId, max: nat, watched: bool, n: nat)
    requires MayRestart(s, t, id, max, watched) && n < (if max == 0 then 1 else max)
    ensures RestartAlone(s, t, n) == Replaced(s, t, id, watched, n)
  {
    var was, down := s.pool[id], Down(s, t, id, max, watched);
    TriedFromDown(s, t, id, max, watched, n);
    DownMaySpawn(s, t, id, max, watched);
    RetrySucceeds(down, t, was.spec, was.token, max, watched, n, Attempts(TakeDown(s, t), t, n));
    RetriedIsReplaced(s, t, id, max, watched, n);
  }

  lemma LastAttempt(s: Machine, t: TaskId, spec: Spec, token: string, max: nat, watched: bool, n: nat)
    requires MaySpawn(s, t, spec, token, Restart(1, max, watched)) && n + 1 == Max1(max)
    ensures FailedAttempt(Tried(s, t, spec, token, max, watched, n), t)
            == s.(killed := s.killed + Children(s.nextChild, n + 1), nextChild := s.nextChild + n + 1,
                  tasks := s.tasks - {t})
  {
    var a := Tried(s, t, spec, token, max, watched, n);
    TriedMaySpawn(s, t, spec, token, max, watched, n);
    UnhealthySpawnKills(a, t, spec, token, Restart(1 + n, max, watched));
    var f := Failed(a, t, spec, token, Restart(1 + n, max, watched));
    assert f.killed == s.killed + Children(s.nextChild, n + 1);
    assert f.tasks - {t} == s.tasks - {t};
  }

  /** The state after a restart of `id` of which all `n` attempts failed. */
  function Lost(s: Machine, t: TaskId, id: InstanceId, n: nat): Machine
    requires id in s.pool
  {
    var d := Shutdown(s, s.pool[id].child);
    d.(pool := s.pool - {id}, killed := d.killed + Children(s.nextChild, n), nextChild := s.nextChild + n,
       tasks := s.tasks - {t})
  }

  lemma LostIs(s: Machine, t: TaskId, id: InstanceId, max: nat, watched: bool, n: nat)
    requires id in s.pool && n > 0
    ensures
      var d := Down(s, t, id, max, watched);
      d.(killed := d.killed + Children(d.nextChild, n), nextChild := d.nextChild + n, tasks := d.tasks - {t})
      == Lost(s, t, id, n)
  {
    assert Down(s, t, id, max, watched).tasks - {t} == s.tasks - {t};
  }

  lemma LostFromDown(s: Machine, t: TaskId, id: InstanceId, max: nat, watched: bool, n: nat, a: Machine)
    requires MayRestart(s, t, id, max, watched) && n == Max1(max)
    requires a == Tried(Down(s, t, id, max, watched), t, s.pool[id].spec, s.pool[id].token, max, watched, n - 1)
    ensures FailedAttempt(a, t) == Lost(s, t, id, n)
  {
    DownMaySpawn(s, t, id, max, watched);
    LastAttempt(Down(s, t, id, max, watched), t, s.pool[id].spec, s.pool[id].token, max, watched, n - 1);
    LostIs(s, t, id, max, watched, n);
  }

  lemma AllFail(s: Machine, t: TaskId, id: InstanceId, max: nat, watched: bool, n: nat)
    requires MayRestart(s, t, id, max, watched) && n == Max1(max)
    ensures FailAlone(s, t, n) == Lost(s, t, id, n)
  {
    TriedFromDown(s, t, id, max, watched, n - 1);
    LostFromDown(s, t, id, max, watched, n, Attempts(TakeDown(s, t), t, n - 1));
  }

  /** A restart gives up after `max` failures, or after one if `max` is zero. */
  lemma RestartGivesUp(s: Machine, t: TaskId, id: InstanceId, max: nat, watched: bool)
    requires MayRestart(s, t, id, max, watched)
    ensures var n := if max == 0 then 1 else max; FailAlone(s, t, n) == Lost(s, t, id, n)
  {
    AllFail(s, t, id, max, watched, Max1(max));
  }

  // ---- The watchdog and a dead child ----

  /** Watchdog `t` finds at its next turn that the child of `id` is gone or cannot be waited for. */
  predicate Reports(s: Machine, t: TaskId, id: InstanceId, waitError: bool) {
    && t in s.tasks && s.tasks[t].Watching? && s.tasks[t].id == id && id in s.pool
    && (waitError || s.pool[id].child in s.exited)
  }

  lemma ReportRestarts(s: Machine, t: TaskId, id: InstanceId, waitError: bool)
    requires Inv(s) && Reports(s, t, id, waitError)
    ensures
      var p := PollStep(s, t, waitError);
      && MayRestart(p, t, id, 3, true)
      && p == s.(tasks := s.tasks[t := RestartReading(id, 3, true)],
                 accidents := s.accidents + [Accident(id, s.pool[id].child, waitError)])
  {
  }

  /** The state in which the watchdog has got instance `id` back as child `c`. */
  function Recovered(s: Machine, t: TaskId, id: InstanceId, waitError: bool, c: ChildId): Machine
    requires id in s.pool && s.nextChild <= c
  {
    var was := s.pool[id];
    s.(pool := s.pool[id := Managed(c, was.spec, was.token)],
       tasks := s.tasks[t := Watching(id, 0)],
       accidents := s.accidents + [Accident(id, was.child, waitError)],
       alive := s.alive - {was.child} + {c},
       killed := s.killed + (s.alive * {was.child}) + Children(s.nextChild, c - s.nextChild),
       nextChild := c + 1)
  }

  lemma ShutdownIs(s: Machine, c: ChildId)
    ensures Shutdown(s, c) == s.(alive := s.alive - {c}, killed := s.killed + (s.alive * {c}))
  {
    assert s.alive * {c} == if c in s.alive then {c} else {};
  }

  lemma ReplacedIsRecovered(s: Machine, t: TaskId, id: InstanceId, waitError: bool, n: nat)
    requires Inv(s) && Reports(s, t, id, waitError)
    ensures Replaced(PollStep(s, t, waitError), t, id, true, n) == Recovered(s, t, id, waitError, s.nextChild + n)
  {
    var p := PollStep(s, t, waitError);
    ReportRestarts(s, t, id, waitError);
    ShutdownIs(p, s.pool[id].child);
    assert p.tasks[t := Watching(id, 0)] == s.tasks[t := Watching(id, 0)];
  }

  lemma RecoveredHasNewChild(s: Machine, t: TaskId, id: InstanceId, waitError: bool, c: ChildId)
    requires Inv(s) && id in s.pool && s.nextChild <= c
    ensures
      var e := Recovered(s, t, id, waitError, c);
      !Pooled(e, s.pool[id].child) && s.pool[id].child !in e.alive
  {
    assert s.pool[id].child in s.alive || s.pool[id].child in s.exited;
  }

  /** The watchdog gets the instance back if one of three children becomes healthy: the pool then
      holds that child under the same spec and token, the watchdog watches it, the dead child and
      those that failed are neither pooled nor alive, and nothing else has changed. */
  lemma DeadInstanceIsReplaced(s: Machine, t: TaskId, id: InstanceId, waitError: bool, n: nat)
    requires Inv(s) && Reports(s, t, id, waitError) && n < 3
    ensures
      var e := RestartAlone(PollStep(s, t, waitError), t, n);
      && e == Recovered(s, t, id, waitError, s.nextChild + n)
      && !Pooled(e, s.pool[id].child) && s.pool[id].child !in e.alive
  {
    var p := PollStep(s, t, waitError);
    ReportRestarts(s, t, id, waitError);
    RestartReplaces(p, t, id, 3, true, n);
    ReplacedIsRecovered(s, t, id, waitError, n);
    RecoveredHasNewChild(s, t, id, waitError, s.nextChild + n);
  }

  /** If none of them does, the watchdog ends after exactly three children, all of them killed, and
      the instance has left the pool. */
  lemma DeadInstanceIsGivenUp(s: Machine, t: TaskId, id: InstanceId, waitError: bool)
    requires Inv(s) && Reports(s, t, id, waitError)
    ensures
      var was := s.pool[id].child;
      FailAlone(PollStep(s, t, waitError), t, 3)
      == s.(pool := s.pool - {id}, tasks := s.tasks - {t},
            accidents := s.accidents + [Accident(id, was, waitError)],
            alive := s.alive - {was},
            killed := s.killed + (s.alive * {was}) + Children(s.nextChild, 3),
            nextChild := s.nextChild + 3)
  {
    var p := PollStep(s, t, waitError);
    ReportRestarts(s, t, id, waitError);
    RestartGivesUp(p, t, id, 3, true);
    ShutdownIs(p, s.pool[id].child);
    assert p.tasks - {t} == s.tasks - {t};
  }

  // ---- The watchdog in any run ----

  predicate WatchedGoal(goal: Goal) { goal.Restart? && goal.max == 3 && goal.watched }

  /** The task watches `id` or restarts it. */
  predicate Guards(task: Task, id: InstanceId) {
    match task
    case Watching(x, _) => x == id
    case RestartReading(x, max, watched) => x == id && max == 3 && watched
    case RestartRemoving(spec, _, max, watched) => spec.instanceId == id && max == 3 && watched
    case RestartKilling(_, spec, _, max, watched) => spec.instanceId == id && max == 3 && watched
    case BackingOff(spec, _, _, max, watched) => spec.instanceId == id && max == 3 && watched
    case SpawnChecking(spec, _, goal) => spec.instanceId == id && WatchedGoal(goal)
    case SpawnBooting(spec, _, _, goal) => spec.instanceId == id && WatchedGoal(goal)
    case SpawnInserting(spec, _, _, goal) => spec.instanceId == id && WatchedGoal(goal)
    case SpawnDropping(spec, _, _, goal) => spec.instanceId == id && WatchedGoal(goal)
    case StopRemoving(_) => false
    case StopKilling(_) => false
  }

  predicate Guarded(s: Machine, t: TaskId, id: InstanceId) { t in s.tasks && Guards(s.tasks[t], id) }

  /** The three ways in which a watchdog gives up: its instance was missing for more than 60 turns,
      somebody took it away between the report and the restart, or the third attempt has failed. */
  predicate GivesUp(s: Machine, step: Step, t: TaskId, id: InstanceId) {
    t in s.tasks
    && match s.tasks[t]
       case Watching(_, missing) => step.Poll? && step.t == t && id !in s.pool && missing >= 60
       case RestartReading(_, _, _) => step.Advance? && step.t == t && id !in s.pool
       case BackingOff(_, _, attempt, _, _) => step.Advance? && step.t == t && attempt >= 3
       case _ => false
  }

  lemma OwnSpawnStep(s: Machine, t: TaskId, ok: bool, id: InstanceId)
    requires Inv(s) && Guarded(s, t, id) && Spawning(s.tasks[t])
    ensures Guarded(SpawnStep(s, t, ok), t, id)
  {
  }

  lemma OwnRestartStep(s: Machine, t: TaskId, id: InstanceId)
    requires Inv(s) && Guarded(s, t, id) && !Spawning(s.tasks[t]) && !Stopping(s.tasks[t])
    ensures
      var n := RestartStep(s, t);
      if GivesUp(s, Advance(t, true), t, id) then t !in n.tasks else Guarded(n, t, id)
  {
  }

  /** A watchdog goes on through every step but the three. */
  lemma GuardStep(s: Machine, step: Step, t: TaskId, id: InstanceId)
    requires Inv(s) && Guarded(s, t, id)
    ensures
      var n := Apply(s, step);
      if GivesUp(s, step, t, id) then t !in n.tasks else Guarded(n, t, id)
  {
    if step.Advance? && step.t == t {
      if Spawning(s.tasks[t]) { OwnSpawnStep(s, t, step.ok, id); } else { OwnRestartStep(s, t, id); }
    } else if step.Advance? {
      OthersLeaveTaskAlone(s, step, t);
    }
  }

  lemma EndedStaysEnded(s: Machine, step: Step, t: TaskId)
    requires t < s.nextTask && t !in s.tasks
    ensures t < Apply(s, step).nextTask && t !in Apply(s, step).tasks
  {
    if step.Advance? && step.t != t { OthersLeaveTaskAlone(s, step, t); }
  }

  lemma {:induction false} ExecKeepsInv(s: Machine, steps: seq<Step>)
    requires Inv(s)
    ensures Inv(Exec(s, steps))
    decreases |steps|
  {
    if steps != [] {
      ExecKeepsInv(s, steps[..|steps| - 1]);
      StepKeepsInv(Exec(s, steps[..|steps| - 1]), steps[|steps| - 1]);
    }
  }

  /** The watchdog gives up somewhere in the run. */
  predicate GaveUp(s: Machine, steps: seq<Step>, t: TaskId, id: InstanceId)
    decreases |steps|
  {
    steps != []
    && (var init := steps[..|steps| - 1];
        GaveUp(s, init, t, id) || GivesUp(Exec(s, init), steps[|steps| - 1], t, id))
  }

  lemma {:induction false} GuardedUnlessGivenUp(s: Machine, steps: seq<Step>, t: TaskId, id: InstanceId)
    requires Inv(s) && Guarded(s, t, id)
    ensures
      var n := Exec(s, steps);
      && t < n.nextTask
      && if GaveUp(s, steps, t, id) then t !in n.tasks else Guarded(n, t, id)
    decreases |steps|
  {
    if steps != [] {
      var init, last := steps[..|steps| - 1], steps[|steps| - 1];
      GuardedUnlessGivenUp(s, init, t, id);
      ExecKeepsInv(s, init);
      if GaveUp(s, init, t, id) {
        EndedStaysEnded(Exec(s, init), last, t);
      } else {
        GuardStep(Exec(s, init), last, t, id);
        StepKeepsInv(Exec(s, init), last);
      }
    }
  }

  /** After every accident of every run, the watchdog that recorded it is restarting or watching the
      instance, unless it has given up in one of the three ways. */
  lemma AccidentIsFollowedUp(before: seq<Step>, t: TaskId, waitError: bool, after: seq<Step>)
    requires var s := Exec(EMPTY, before); PollStep(s, t, waitError).accidents != s.accidents
    ensures
      var s := Exec(EMPTY, before);
      var reported := PollStep(s, t, waitError);
      var end := Exec(reported, after);
      if GaveUp(reported, after, t, s.tasks[t].id) then t !in end.tasks else Guarded(end, t, s.tasks[t].id)
  {
    RunKeepsInv(before);
    var s := Exec(EMPTY, before);
    PollKeepsInv(s, t, waitError);
    GuardedUnlessGivenUp(PollStep(s, t, waitError), after, t, s.tasks[t].id);
  }
}
