/**
  The supervisor pool and its child processes under any interleaving of `spawn_into`, `stop_from`,
  `restart_from` and exit watchdogs. The pool lock is dropped around the slow parts, so starting
  and killing a child are steps of their own; a child may also exit by itself at any time.
 */
module ChildProcesses {
  import opened Wrappers
  import opened LaunchManifests

  type ChildId = nat
  type TaskId = nat

  datatype Spec = Spec(instanceId: InstanceId, appId: AppId)

  datatype Managed = Managed(child: ChildId, spec: Spec, token: string)

  /** Why a spawn runs: by itself, or as attempt number `attempt` of a restart, which a watchdog
      may be waiting for. */
  datatype Goal = Once | Restart(attempt: nat, max: nat, watched: bool)

  datatype Task =
    | SpawnChecking(spec: Spec, token: string, goal: Goal)
    | SpawnBooting(spec: Spec, token: string, child: ChildId, goal: Goal)
    | SpawnInserting(spec: Spec, token: string, child: ChildId, goal: Goal)
    | SpawnDropping(spec: Spec, token: string, child: ChildId, goal: Goal)
    | BackingOff(spec: Spec, token: string, attempt: nat, max: nat, watched: bool)
    | StopRemoving(id: InstanceId)
    | StopKilling(child: ChildId)
    | RestartReading(id: InstanceId, max: nat, watched: bool)
    | RestartRemoving(spec: Spec, token: string, max: nat, watched: bool)
    | RestartKilling(child: ChildId, spec: Spec, token: string, max: nat, watched: bool)
    | Watching(id: InstanceId, missing: nat)

  datatype Accident = Accident(id: InstanceId, child: ChildId, waitError: bool)

  /** `alive`, `exited` (by itself) and `killed` are the fates of the children started so far. */
  datatype Machine = Machine(
    pool: map<InstanceId, Managed>,
    alive: set<ChildId>,
    exited: set<ChildId>,
    killed: set<ChildId>,
    tasks: map<TaskId, Task>,
    nextChild: ChildId,
    nextTask: TaskId,
    accidents: seq<Accident>)

  datatype Step =
    | Begin(task: Task)
    | Advance(t: TaskId, ok: bool)
    | Poll(t: TaskId, waitError: bool)
    | Exit(child: ChildId)

  const MISSING_LIMIT: nat := 60
  const WATCHDOG_ATTEMPTS: nat := 3

  // ---- Steps ----

  predicate MayBegin(task: Task) {
    || (task.SpawnChecking? && task.goal.Once?)
    || task.StopRemoving?
    || (task.RestartReading? && !task.watched)
    || (task.Watching? && task.missing == 0)
  }

  function Become(s: Machine, t: TaskId, task: Task): Machine { s.(tasks := s.tasks[t := task]) }

  function End(s: Machine, t: TaskId): Machine { s.(tasks := s.tasks - {t}) }

  /** `ManagedRuntime::shutdown`: the child is gone afterwards, killed unless it had exited. */
  function Shutdown(s: Machine, c: ChildId): Machine {
    if c in s.alive then s.(alive := s.alive - {c}, killed := s.killed + {c}) else s
  }

  function SpawnFailed(s: Machine, t: TaskId, spec: Spec, token: string, goal: Goal): Machine {
    match goal
    case Once => End(s, t)
    case Restart(attempt, max, watched) => Become(s, t, BackingOff(spec, token, attempt, max, watched))
  }

  function SpawnSucceeded(s: Machine, t: TaskId, spec: Spec, goal: Goal): Machine {
    if goal.Restart? && goal.watched then Become(s, t, Watching(spec.instanceId, 0)) else End(s, t)
  }

  function Max1(n: nat): nat { if n < 1 then 1 else n }

  predicate Spawning(task: Task) {
    task.SpawnChecking? || task.SpawnBooting? || task.SpawnInserting? || task.SpawnDropping?
  }

  predicate Stopping(task: Task) { task.StopRemoving? || task.StopKilling? }

  /** `spawn_into`. */
  function SpawnStep(s: Machine, t: TaskId, ok: bool): Machine
    requires t in s.tasks && Spawning(s.tasks[t])
  {
    match s.tasks[t]
    case SpawnChecking(spec, token, goal) =>
      if spec.instanceId in s.pool || !ok then SpawnFailed(s, t, spec, token, goal)
      else
        var c := s.nextChild;
        Become(s, t, SpawnBooting(spec, token, c, goal)).(alive := s.alive + {c}, nextChild := c + 1)
    case SpawnBooting(spec, token, c, goal) =>
      if ok then Become(s, t, SpawnInserting(spec, token, c, goal))
      else SpawnFailed(Shutdown(s, c), t, spec, token, goal)
    case SpawnInserting(spec, token, c, goal) =>
      if spec.instanceId in s.pool then Become(s, t, SpawnDropping(spec, token, c, goal))
      else SpawnSucceeded(s, t, spec, goal).(pool := s.pool[spec.instanceId := Managed(c, spec, token)])
    case SpawnDropping(spec, token, c, goal) => SpawnFailed(Shutdown(s, c), t, spec, token, goal)
  }

  /** `stop_from`. */
  function StopStep(s: Machine, t: TaskId): Machine
    requires t in s.tasks && Stopping(s.tasks[t])
  {
    match s.tasks[t]
    case StopRemoving(id) =>
      if id in s.pool then Become(s, t, StopKilling(s.pool[id].child)).(pool := s.pool - {id}) else End(s, t)
    case StopKilling(c) => End(Shutdown(s, c), t)
  }

  /** `restart_from`, between its spawn attempts. */
  function RestartStep(s: Machine, t: TaskId): Machine
    requires t in s.tasks && !Spawning(s.tasks[t]) && !Stopping(s.tasks[t])
  {
    match s.tasks[t]
    case RestartReading(id, max, watched) =>
      if id in s.pool then Become(s, t, RestartRemoving(s.pool[id].spec, s.pool[id].token, max, watched))
      else End(s, t)
    case RestartRemoving(spec, token, max, watched) =>
      var id := spec.instanceId;
      if id in s.pool
      then Become(s, t, RestartKilling(s.pool[id].child, spec, token, max, watched)).(pool := s.pool - {id})
      else Become(s, t, SpawnChecking(spec, token, Restart(1, max, watched)))
    case RestartKilling(c, spec, token, max, watched) =>
      Become(Shutdown(s, c), t, SpawnChecking(spec, token, Restart(1, max, watched)))
    case BackingOff(spec, token, attempt, max, watched) =>
      if attempt < Max1(max) then Become(s, t, SpawnChecking(spec, token, Restart(attempt + 1, max, watched)))
      else End(s, t)
    case Watching(_, _) => s
  }

  function AdvanceStep(s: Machine, t: TaskId, ok: bool): Machine {
    if t !in s.tasks then s
    else if Spawning(s.tasks[t]) then SpawnStep(s, t, ok)
    else if Stopping(s.tasks[t]) then StopStep(s, t)
    else RestartStep(s, t)
  }

  /** One turn of the exit watchdog. `waitError` is `try_wait` failing, which counts as an exit. */
  function PollStep(s: Machine, t: TaskId, waitError: bool): Machine {
    if t in s.tasks && s.tasks[t].Watching? then
      var id, missing := s.tasks[t].id, s.tasks[t].missing;
      if id !in s.pool then
        if missing + 1 > MISSING_LIMIT then End(s, t) else Become(s, t, Watching(id, missing + 1))
      else if waitError || s.pool[id].child in s.exited then
        Become(s, t, RestartReading(id, WATCHDOG_ATTEMPTS, true))
          .(accidents := s.accidents + [Accident(id, s.pool[id].child, waitError)])
      else Become(s, t, Watching(id, 0))
    else s
  }

  function Apply(s: Machine, step: Step): Machine {
    match step
    case Begin(task) =>
      if MayBegin(task) then s.(tasks := s.tasks[s.nextTask := task], nextTask := s.nextTask + 1) else s
    case Advance(t, ok) => AdvanceStep(s, t, ok)
    case Poll(t, waitError) => PollStep(s, t, waitError)
    case Exit(c) => if c in s.alive then s.(alive := s.alive - {c}, exited := s.exited + {c}) else s
  }

  function Exec(s: Machine, steps: seq<Step>): Machine
    decreases |steps|
  {
    if steps == [] then s else Apply(Exec(s, steps[..|steps| - 1]), steps[|steps| - 1])
  }

  const EMPTY := Machine(map[], {}, {}, {}, map[], 0, 0, [])

  // ---- Who owns a child ----

  function Holds(task: Task): Option<ChildId> {
    match task
    case SpawnBooting(_, _, c, _) => Some(c)
    case SpawnInserting(_, _, c, _) => Some(c)
    case SpawnDropping(_, _, c, _) => Some(c)
    case StopKilling(c) => Some(c)
    case RestartKilling(c, _, _, _, _) => Some(c)
    case _ => None
  }

  ghost predicate Pooled(s: Machine, c: ChildId) {
    exists id :: id in s.pool && s.pool[id].child == c
  }

  ghost predicate Held(s: Machine, c: ChildId) {
    exists t :: t in s.tasks && Holds(s.tasks[t]) == Some(c)
  }

  /** Each entry is under its own id; no child is in two entries, in two tasks, or in both. */
  ghost predicate Exclusive(s: Machine) {
    && (forall id :: id in s.pool ==> s.pool[id].spec.instanceId == id)
    && (forall i, j :: i in s.pool && j in s.pool && i != j ==> s.pool[i].child != s.pool[j].child)
    && (forall t, u :: t in s.tasks && u in s.tasks && t != u && Holds(s.tasks[t]).Some? ==>
          Holds(s.tasks[t]) != Holds(s.tasks[u]))
    && (forall id, t :: id in s.pool && t in s.tasks ==> Holds(s.tasks[t]) != Some(s.pool[id].child))
  }

  ghost predicate Fates(s: Machine) {
    && s.alive !! s.exited && s.alive !! s.killed && s.exited !! s.killed
    && (forall c :: c in s.alive || c in s.exited || c in s.killed ==> c < s.nextChild)
    && (forall id :: id in s.pool ==> s.pool[id].child in s.alive || s.pool[id].child in s.exited)
    && (forall t :: t in s.tasks && Holds(s.tasks[t]).Some? ==>
          Holds(s.tasks[t]).value in s.alive || Holds(s.tasks[t]).value in s.exited)
  }

  ghost predicate NoLeak(s: Machine) {
    forall c :: c in s.alive ==> Pooled(s, c) || Held(s, c)
  }

  ghost predicate Inv(s: Machine) {
    && Exclusive(s) && Fates(s) && NoLeak(s)
    && (forall t :: t in s.tasks ==> t < s.nextTask)
    && (forall a :: a in s.accidents && !a.waitError ==> a.child in s.exited)
  }

  // ---- Every step keeps it ----

  // Each step is one of five moves of a task, which goes on as `next` or returns.

  function Turn(s: Machine, t: TaskId, next: Option<Task>): Machine {
    match next
    case Some(task) => Become(s, t, task)
    case None => End(s, t)
  }

  function Next(n: Machine, t: TaskId): Option<Task> {
    if t in n.tasks then Some(n.tasks[t]) else None
  }

  function HeldBy(next: Option<Task>): Option<ChildId> {
    match next
    case Some(task) => Holds(task)
    case None => None
  }

  ghost predicate Stays(s: Machine, n: Machine, c: ChildId) {
    (Pooled(s, c) ==> Pooled(n, c)) && (Held(s, c) ==> Held(n, c))
  }

  lemma TurnStays(s: Machine, n: Machine, t: TaskId, c: ChildId)
    requires forall u :: u in s.tasks && u != t ==> u in n.tasks && n.tasks[u] == s.tasks[u]
    requires forall id :: id in s.pool && s.pool[id].child == c ==> id in n.pool && n.pool[id].child == c
    requires t in s.tasks && Holds(s.tasks[t]) == Some(c) ==> t in n.tasks && Holds(n.tasks[t]) == Some(c)
    ensures Stays(s, n, c)
  {
  }

  /** The task goes on with the child it held, if any. */
  lemma TurnKeepsInv(s: Machine, t: TaskId, next: Option<Task>)
    requires Inv(s) && t in s.tasks && HeldBy(next) == Holds(s.tasks[t])
    ensures Inv(Turn(s, t, next))
  {
    forall c | c in s.alive ensures Stays(s, Turn(s, t, next), c) { TurnStays(s, Turn(s, t, next), t, c); }
  }

  /** A child leaves the pool and is held by the task. */
  lemma TakeKeepsInv(s: Machine, t: TaskId, id: InstanceId, task: Task)
    requires Inv(s) && t in s.tasks && Holds(s.tasks[t]).None?
    requires id in s.pool && Holds(task) == Some(s.pool[id].child)
    ensures Inv(Become(s, t, task).(pool := s.pool - {id}))
  {
    var n := Become(s, t, task).(pool := s.pool - {id});
    forall c | c in s.alive ensures Pooled(n, c) || Held(n, c) {
      if c == s.pool[id].child { assert Holds(n.tasks[t]) == Some(c); } else { TurnStays(s, n, t, c); }
    }
  }

  lemma PutKeepsOwners(s: Machine, t: TaskId, m: Managed, next: Option<Task>)
    requires Inv(s) && t in s.tasks && Holds(s.tasks[t]) == Some(m.child)
    requires m.spec.instanceId !in s.pool && HeldBy(next).None?
    ensures var n := Turn(s, t, next).(pool := s.pool[m.spec.instanceId := m]); Exclusive(n) && Fates(n)
  {
  }

  /** The child the task holds enters the pool under a free id. */
  lemma PutKeepsInv(s: Machine, t: TaskId, m: Managed, next: Option<Task>)
    requires Inv(s) && t in s.tasks && Holds(s.tasks[t]) == Some(m.child)
    requires m.spec.instanceId !in s.pool && HeldBy(next).None?
    ensures Inv(Turn(s, t, next).(pool := s.pool[m.spec.instanceId := m]))
  {
    var n := Turn(s, t, next).(pool := s.pool[m.spec.instanceId := m]);
    PutKeepsOwners(s, t, m, next);
    forall c | c in s.alive ensures Pooled(n, c) || Held(n, c) {
      if c == m.child { assert n.pool[m.spec.instanceId].child == c; } else { TurnStays(s, n, t, c); }
    }
  }

  /** A new child is started and held by the task. */
  lemma LaunchKeepsInv(s: Machine, t: TaskId, task: Task)
    requires Inv(s) && t in s.tasks && Holds(s.tasks[t]).None? && Holds(task) == Some(s.nextChild)
    ensures Inv(Become(s, t, task).(alive := s.alive + {s.nextChild}, nextChild := s.nextChild + 1))
  {
    var n := Become(s, t, task).(alive := s.alive + {s.nextChild}, nextChild := s.nextChild + 1);
    assert Holds(n.tasks[t]) == Some(s.nextChild);
    forall c | c in s.alive ensures Stays(s, n, c) { TurnStays(s, n, t, c); }
  }

  lemma DropKeepsOwners(s: Machine, t: TaskId, c: ChildId, next: Option<Task>)
    requires Inv(s) && t in s.tasks && Holds(s.tasks[t]) == Some(c) && HeldBy(next).None?
    ensures var n := Turn(Shutdown(s, c), t, next); Exclusive(n) && Fates(n)
  {
  }

  /** The child the task holds is shut down. */
  lemma DropKeepsInv(s: Machine, t: TaskId, c: ChildId, next: Option<Task>)
    requires Inv(s) && t in s.tasks && Holds(s.tasks[t]) == Some(c) && HeldBy(next).None?
    ensures Inv(Turn(Shutdown(s, c), t, next))
  {
    var n := Turn(Shutdown(s, c), t, next);
    DropKeepsOwners(s, t, c, next);
    forall d | d in n.alive ensures Stays(s, n, d) { TurnStays(s, n, t, d); }
  }

  lemma StartingKeepsInv(s: Machine, t: TaskId, ok: bool)
    requires Inv(s) && t in s.tasks && (s.tasks[t].SpawnChecking? || s.tasks[t].SpawnBooting?)
    ensures Inv(SpawnStep(s, t, ok))
  {
    var n := SpawnStep(s, t, ok);
    match s.tasks[t]
    case SpawnChecking(spec, _, _) =>
      if spec.instanceId in s.pool || !ok { TurnKeepsInv(s, t, Next(n, t)); } else { LaunchKeepsInv(s, t, n.tasks[t]); }
    case SpawnBooting(_, _, c, _) =>
      if ok { TurnKeepsInv(s, t, Next(n, t)); } else { DropKeepsInv(s, t, c, Next(n, t)); }
  }

  lemma InsertingKeepsInv(s: Machine, t: TaskId, ok: bool)
    requires Inv(s) && t in s.tasks && s.tasks[t].SpawnInserting?
    ensures Inv(SpawnStep(s, t, ok))
  {
    var next := Next(SpawnStep(s, t, ok), t);
    var m := Managed(s.tasks[t].child, s.tasks[t].spec, s.tasks[t].token);
    if m.spec.instanceId in s.pool { TurnKeepsInv(s, t, next); } else { PutKeepsInv(s, t, m, next); }
  }

  lemma DroppingKeepsInv(s: Machine, t: TaskId, ok: bool)
    requires Inv(s) && t in s.tasks && s.tasks[t].SpawnDropping?
    ensures Inv(SpawnStep(s, t, ok))
  {
    DropKeepsInv(s, t, s.tasks[t].child, Next(SpawnStep(s, t, ok), t));
  }

  lemma StopKeepsInv(s: Machine, t: TaskId)
    requires Inv(s) && t in s.tasks && Stopping(s.tasks[t])
    ensures Inv(StopStep(s, t))
  {
    var n := StopStep(s, t);
    match s.tasks[t]
    case StopRemoving(id) =>
      if id in s.pool { TakeKeepsInv(s, t, id, n.tasks[t]); } else { TurnKeepsInv(s, t, Next(n, t)); }
    case StopKilling(c) => DropKeepsInv(s, t, c, Next(n, t));
  }

  lemma RestartKeepsInv(s: Machine, t: TaskId)
    requires Inv(s) && t in s.tasks && !Spawning(s.tasks[t]) && !Stopping(s.tasks[t])
    ensures Inv(RestartStep(s, t))
  {
    var n := RestartStep(s, t);
    var next := Next(n, t);
    match s.tasks[t]
    case RestartReading(id, _, _) => TurnKeepsInv(s, t, next);
    case RestartRemoving(spec, _, _, _) =>
      if spec.instanceId in s.pool { TakeKeepsInv(s, t, spec.instanceId, n.tasks[t]);
      } else { TurnKeepsInv(s, t, next); }
    case RestartKilling(c, _, _, _, _) => DropKeepsInv(s, t, c, next);
    case BackingOff(_, _, _, _, _) => TurnKeepsInv(s, t, next);
    case Watching(_, _) =>
  }

  lemma AdvanceKeepsInv(s: Machine, t: TaskId, ok: bool)
    requires Inv(s)
    ensures Inv(AdvanceStep(s, t, ok))
  {
    if t in s.tasks {
      if s.tasks[t].SpawnChecking? || s.tasks[t].SpawnBooting? {
        StartingKeepsInv(s, t, ok);
      } else if s.tasks[t].SpawnInserting? {
        InsertingKeepsInv(s, t, ok);
      } else if s.tasks[t].SpawnDropping? {
        DroppingKeepsInv(s, t, ok);
      } else if Stopping(s.tasks[t]) {
        StopKeepsInv(s, t);
      } else {
        RestartKeepsInv(s, t);
      }
    }
  }

  lemma PollKeepsInv(s: Machine, t: TaskId, waitError: bool)
    requires Inv(s)
    ensures Inv(PollStep(s, t, waitError))
  {
    if t in s.tasks && s.tasks[t].Watching? {
      var n := PollStep(s, t, waitError);
      var turned := n.(accidents := s.accidents);
      TurnKeepsInv(s, t, Next(n, t));
      assert Inv(turned);
      forall c | c in n.alive ensures Stays(turned, n, c) { TurnStays(turned, n, t, c); }
    }
  }

  lemma BeginKeepsOwners(s: Machine, task: Task)
    requires Inv(s)
    ensures Exclusive(Apply(s, Begin(task))) && Fates(Apply(s, Begin(task)))
  {
  }

  lemma BeginKeepsInv(s: Machine, task: Task)
    requires Inv(s)
    ensures Inv(Apply(s, Begin(task)))
  {
    var n := Apply(s, Begin(task));
    BeginKeepsOwners(s, task);
    forall c | c in n.alive ensures Stays(s, n, c) { TurnStays(s, n, s.nextTask, c); }
  }

  lemma ExitKeepsInv(s: Machine, child: ChildId)
    requires Inv(s)
    ensures Inv(Apply(s, Exit(child)))
  {
    var n := Apply(s, Exit(child));
    forall c | c in n.alive ensures Stays(s, n, c) { TurnStays(s, n, s.nextTask, c); }
  }

  lemma StepKeepsInv(s: Machine, step: Step)
    requires Inv(s)
    ensures Inv(Apply(s, step))
  {
    match step
    case Begin(task) => BeginKeepsInv(s, task);
    case Advance(t, ok) => AdvanceKeepsInv(s, t, ok);
    case Poll(t, waitError) => PollKeepsInv(s, t, waitError);
    case Exit(c) => ExitKeepsInv(s, c);
  }

  lemma {:induction false} RunKeepsInv(steps: seq<Step>)
    ensures Inv(Exec(EMPTY, steps))
    decreases |steps|
  {
    if steps != [] {
      RunKeepsInv(steps[..|steps| - 1]);
      StepKeepsInv(Exec(EMPTY, steps[..|steps| - 1]), steps[|steps| - 1]);
    }
  }

  // ---- Results ----

  /** No child is leaked or doubly owned: in every reachable state a live child is in the pool
      under its own instance id or held by one task, never both, and never twice. */
  lemma LiveChildHasOneOwner(steps: seq<Step>, c: ChildId)
    requires c in Exec(EMPTY, steps).alive
    ensures
      var s := Exec(EMPTY, steps);
      && (Pooled(s, c) <==> !Held(s, c))
      && (forall i, j :: i in s.pool && j in s.pool && s.pool[i].child == c == s.pool[j].child ==> i == j)
      && (forall t, u :: t in s.tasks && u in s.tasks && Holds(s.tasks[t]) == Some(c) == Holds(s.tasks[u]) ==> t == u)
      && (forall i :: i in s.pool && s.pool[i].child == c ==> s.pool[i].spec.instanceId == i)
  {
    RunKeepsInv(steps);
  }

  /** No pool entry is overwritten: a step can remove an entry or add one under a free id. */
  lemma NoEntryIsOverwritten(s: Machine, step: Step, id: InstanceId)
    requires id in s.pool && id in Apply(s, step).pool
    ensures Apply(s, step).pool[id] == s.pool[id]
  {
  }

  /** Once every spawn, stop and restart has returned, the live children are exactly the pooled
      ones that have not exited by themselves. */
  lemma QuiescentPoolIsAllThatLives(steps: seq<Step>, c: ChildId)
    requires var s := Exec(EMPTY, steps); forall t :: t in s.tasks ==> s.tasks[t].Watching?
    ensures var s := Exec(EMPTY, steps); c in s.alive <==> Pooled(s, c) && c !in s.exited
  {
    RunKeepsInv(steps);
    var s := Exec(EMPTY, steps);
    if Pooled(s, c) {
      var id :| id in s.pool && s.pool[id].child == c;
      assert s.pool[id].child in s.alive || s.pool[id].child in s.exited;
    }
  }

  /** Every accident of a run was recorded at a moment at which its instance was pooled with the
      child it names, and that child had exited or could not be waited for. */
  lemma {:induction false} AccidentWasPooled(steps: seq<Step>, a: Accident) returns (k: nat)
    requires a in Exec(EMPTY, steps).accidents
    ensures k < |steps|
    ensures
      var s := Exec(EMPTY, steps[..k]);
      && a.id in s.pool && s.pool[a.id].child == a.child
      && (a.waitError || a.child in s.exited)
      && Apply(s, steps[k]).accidents == s.accidents + [a]
    decreases |steps|
  {
    var init := steps[..|steps| - 1];
    if a in Exec(EMPTY, init).accidents {
      k := AccidentWasPooled(init, a);
      assert steps[..k] == init[..k];
    } else {
      k := |steps| - 1;
      RecordsOnlyPooled(Exec(EMPTY, init), steps[k], a);
    }
  }

  lemma RecordsOnlyPooled(s: Machine, step: Step, a: Accident)
    requires a in Apply(s, step).accidents && a !in s.accidents
    ensures a.id in s.pool && s.pool[a.id].child == a.child && (a.waitError || a.child in s.exited)
    ensures Apply(s, step).accidents == s.accidents + [a]
  {
  }

  /** The turns that watchdog `t` takes in a run. */
  function PollsOf(t: TaskId, steps: seq<Step>): nat
    decreases |steps|
  {
    if steps == [] then 0
    else
      var last := steps[|steps| - 1];
      PollsOf(t, steps[..|steps| - 1]) + if last.Poll? && last.t == t then 1 else 0
  }

  /** Each of these turns finds the instance missing from the pool. */
  predicate MissingAtPolls(s: Machine, t: TaskId, id: InstanceId, steps: seq<Step>)
    decreases |steps|
  {
    steps == []
    || (var init, last := steps[..|steps| - 1], steps[|steps| - 1];
        && MissingAtPolls(s, t, id, init)
        && (last.Poll? && last.t == t ==> id !in Exec(s, init).pool))
  }

  predicate WatchedFor(s: Machine, t: TaskId, id: InstanceId, n: nat) {
    t < s.nextTask && if n <= MISSING_LIMIT then t in s.tasks && s.tasks[t] == Watching(id, n) else t !in s.tasks
  }

  lemma MissingTurn(s: Machine, t: TaskId, waitError: bool, id: InstanceId, n: nat)
    requires WatchedFor(s, t, id, n) && id !in s.pool
    ensures WatchedFor(PollStep(s, t, waitError), t, id, n + 1)
  {
  }

  /** A turn that finds the instance alive starts the count of missing turns anew. */
  lemma LivingTurn(s: Machine, t: TaskId, id: InstanceId, n: nat)
    requires t in s.tasks && s.tasks[t] == Watching(id, n) && id in s.pool && s.pool[id].child !in s.exited
    ensures PollStep(s, t, false) == s.(tasks := s.tasks[t := Watching(id, 0)])
  {
  }

  lemma OtherTurn(s: Machine, step: Step, t: TaskId, id: InstanceId, n: nat)
    requires WatchedFor(s, t, id, n) && !(step.Poll? && step.t == t)
    ensures WatchedFor(Apply(s, step), t, id, n)
  {
    if step.Advance? && step.t != t { OthersLeaveTaskAlone(s, step, t); }
  }

  lemma OthersLeaveTaskAlone(s: Machine, step: Step, t: TaskId)
    requires step.Advance? && step.t != t
    ensures Next(Apply(s, step), t) == Next(s, t) && Apply(s, step).nextTask == s.nextTask
  {
  }

  /** The watchdog outlives a gap of 60 turns without its instance, as a restart leaves one, and
      gives up at the next, whatever other steps come in between. */
  lemma {:induction false} WatchdogOutlivesGap(s: Machine, t: TaskId, id: InstanceId, steps: seq<Step>)
    requires t < s.nextTask && t in s.tasks && s.tasks[t] == Watching(id, 0)
    requires MissingAtPolls(s, t, id, steps)
    ensures
      var n, end := PollsOf(t, steps), Exec(s, steps);
      if n <= MISSING_LIMIT then t in end.tasks && end.tasks[t] == Watching(id, n) else t !in end.tasks
    ensures WatchedFor(Exec(s, steps), t, id, PollsOf(t, steps))
    decreases |steps|
  {
    if steps != [] {
      var init := steps[..|steps| - 1];
      WatchdogOutlivesGap(s, t, id, init);
      var last := steps[|steps| - 1];
      if last.Poll? && last.t == t {
        MissingTurn(Exec(s, init), t, last.waitError, id, PollsOf(t, init));
      } else {
        OtherTurn(Exec(s, init), last, t, id, PollsOf(t, init));
      }
    }
  }

  /** In no run does the killing of a child count as an accident: an accident reported on an exit
      names a child that exited by itself and was never killed. */
  lemma AccidentsAreOwnExits(steps: seq<Step>, a: Accident)
    requires a in Exec(EMPTY, steps).accidents && !a.waitError
    ensures a.child in Exec(EMPTY, steps).exited && a.child !in Exec(EMPTY, steps).killed
  {
    RunKeepsInv(steps);
  }

  /** A child taken out of the pool to be stopped, a duplicate about to be dropped, or one that
      is already gone. */
  ghost predicate Removed(s: Machine, c: ChildId) {
    && c < s.nextChild
    && (forall id :: id in s.pool ==> s.pool[id].child != c)
    && (forall t :: t in s.tasks && Holds(s.tasks[t]) == Some(c) ==>
          s.tasks[t].StopKilling? || s.tasks[t].RestartKilling? || s.tasks[t].SpawnDropping?)
  }

  lemma SpawnKeepsRemoved(s: Machine, t: TaskId, ok: bool, c: ChildId)
    requires Removed(s, c) && t in s.tasks && Spawning(s.tasks[t])
    ensures Removed(SpawnStep(s, t, ok), c)
  {
  }

  lemma StopKeepsRemoved(s: Machine, t: TaskId, c: ChildId)
    requires Removed(s, c) && t in s.tasks && Stopping(s.tasks[t])
    ensures Removed(StopStep(s, t), c)
  {
  }

  lemma RestartKeepsRemoved(s: Machine, t: TaskId, c: ChildId)
    requires Removed(s, c) && t in s.tasks && !Spawning(s.tasks[t]) && !Stopping(s.tasks[t])
    ensures Removed(RestartStep(s, t), c)
  {
  }

  lemma PollKeepsRemoved(s: Machine, t: TaskId, waitError: bool, c: ChildId)
    requires Removed(s, c)
    ensures Removed(PollStep(s, t, waitError), c)
  {
  }

  lemma RemovedStays(s: Machine, step: Step, c: ChildId)
    requires Removed(s, c)
    ensures Removed(Apply(s, step), c)
  {
    match step
    case Advance(t, ok) =>
      if t in s.tasks {
        if Spawning(s.tasks[t]) {
          SpawnKeepsRemoved(s, t, ok, c);
        } else if Stopping(s.tasks[t]) {
          StopKeepsRemoved(s, t, c);
        } else {
          RestartKeepsRemoved(s, t, c);
        }
      }
    case Poll(t, waitError) => PollKeepsRemoved(s, t, waitError, c);
    case Begin(_) =>
    case Exit(_) =>
  }

  lemma NoNewAccident(s: Machine, step: Step, c: ChildId)
    requires Removed(s, c)
    ensures s.accidents <= Apply(s, step).accidents
    ensures forall i :: |s.accidents| <= i < |Apply(s, step).accidents| ==> Apply(s, step).accidents[i].child != c
  {
  }

  /** From the moment a stop or restart has taken a child out of the pool, no run ever raises an
      accident for it, whatever else happens and whenever the child ends. */
  lemma {:induction false} IntentionalStopRaisesNoAccident(s: Machine, steps: seq<Step>, c: ChildId)
    requires Removed(s, c)
    ensures Removed(Exec(s, steps), c)
    ensures s.accidents <= Exec(s, steps).accidents
    ensures forall i :: |s.accidents| <= i < |Exec(s, steps).accidents| ==> Exec(s, steps).accidents[i].child != c
    decreases |steps|
  {
    if steps != [] {
      var init := steps[..|steps| - 1];
      IntentionalStopRaisesNoAccident(s, init, c);
      RemovedStays(Exec(s, init), steps[|steps| - 1], c);
      NoNewAccident(Exec(s, init), steps[|steps| - 1], c);
    }
  }

  lemma SpawnTakesNothing(s: Machine, t: TaskId, ok: bool, id: InstanceId)
    requires t in s.tasks && Spawning(s.tasks[t]) && id in s.pool
    ensures id in SpawnStep(s, t, ok).pool
  {
  }

  lemma TakingRemoves(s: Machine, t: TaskId, ok: bool, id: InstanceId)
    requires Inv(s) && id in s.pool && id !in AdvanceStep(s, t, ok).pool
    ensures Removed(AdvanceStep(s, t, ok), s.pool[id].child)
  {
    assert s.pool[id].child in s.alive || s.pool[id].child in s.exited;
    if t in s.tasks && Spawning(s.tasks[t]) { SpawnTakesNothing(s, t, ok, id); }
  }

  /** An intentional stop or restart never raises an accident: in every run, once a step has taken
      an instance out of the pool, no accident is recorded for the child it had, whatever follows. */
  lemma StoppedChildRaisesNoAccident(before: seq<Step>, t: TaskId, ok: bool, id: InstanceId, after: seq<Step>)
    requires id in Exec(EMPTY, before).pool && id !in AdvanceStep(Exec(EMPTY, before), t, ok).pool
    ensures
      var s := Exec(EMPTY, before);
      var stopped := AdvanceStep(s, t, ok);
      var end := Exec(stopped, after);
      && stopped.accidents == s.accidents <= end.accidents
      && forall i :: |s.accidents| <= i < |end.accidents| ==> end.accidents[i].child != s.pool[id].child
  {
    RunKeepsInv(before);
    TakingRemoves(Exec(EMPTY, before), t, ok, id);
    IntentionalStopRaisesNoAccident(AdvanceStep(Exec(EMPTY, before), t, ok), after, Exec(EMPTY, before).pool[id].child);
  }

  /** A child may exit between its health check and its insertion. It is then reported although it
      did not exit while pooled: the run below does that. */
  lemma ExitBeforeInsertIsReported(spec: Spec, token: string)
    ensures
      var inserting := Exec(EMPTY, [Begin(SpawnChecking(spec, token, Once)), Advance(0, true), Advance(0, true)]);
      var reported := PollStep(
        Apply(AdvanceStep(Apply(inserting, Exit(0)), 0, true), Begin(Watching(spec.instanceId, 0))), 1, false);
      && 0 in inserting.alive && !Pooled(inserting, 0)
      && reported.accidents == [Accident(spec.instanceId, 0, false)]
  {
    var s1 := Apply(EMPTY, Begin(SpawnChecking(spec, token, Once)));
    var s2 := AdvanceStep(s1, 0, true);
    var s3 := AdvanceStep(s2, 0, true);
    var steps := [Begin(SpawnChecking(spec, token, Once)), Advance(0, true), Advance(0, true)];
    assert steps[..2][..1][..0] == [];
    assert Exec(EMPTY, steps[..2][..1]) == s1;
    assert Exec(EMPTY, steps[..2]) == s2;
    assert Exec(EMPTY, steps) == s3;
  }
}
