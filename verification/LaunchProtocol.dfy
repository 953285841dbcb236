/**
  The app-runtime launch / cutover / stop protocol as a transition system: any number of start
  and stop operations, for any number of apps, interleaving at every point where the Host awaits.
  One step is one locked section; a manifest mutation is three steps (take the mutation lock and
  compute, write the disk copy, install in memory), so other operations run while it is held.
 */
module LaunchProtocol {
  import opened Wrappers
  import opened LaunchManifests

  type OpId = nat

  /** Where a start stands once it has minted its instance id. */
  datatype StartPc =
    | Registering                        // before register_start_candidate's mutation
    | SpawnChecking(revision: Revision)  // spawn_into, first pool lock
    | Booting(revision: Revision)        // child process starting, no lock held
    | SpawnInserting(revision: Revision) // spawn_into, second pool lock
    | EndpointRegistering(revision: Revision)
    | CuttingOver(revision: Revision)    // before execute_cutover's mutation
    | AbortStopping                      // cutover failed: stop_from(own id)
    | EndpointDropping                   // discard_start_candidate, shell lock
    | Discarding                         // before the discard mutation
    | Draining(previous: InstanceId)     // stop_from(previous)
    | RetireDropping(previous: InstanceId)
    | Retiring(previous: InstanceId)     // before the retire mutation

  datatype Op =
    | Preparing(app: AppId)
    | Start(app: AppId, id: InstanceId, specRef: string, pc: StartPc)
    | StopCollecting(app: AppId, active: Option<InstanceId>)
    | StopCommitting(app: AppId, ids: set<InstanceId>)
    | StopKilling(app: AppId, ids: set<InstanceId>)

  /** The manifest mutation lock, with what its holder carries. */
  datatype Lock =
    | Free
    | Computed(holder: OpId, expected: Revision, next: Manifest)
    | Written(holder: OpId, next: Manifest)

  datatype Host = Host(
    mem: Manifest,
    disk: Option<Manifest>,
    lock: Lock,
    pool: set<InstanceId>,
    endpoints: set<InstanceId>,
    inflight: set<AppId>,
    ops: map<OpId, Op>,
    nextOp: OpId,
    nextCounter: nat)

  /** One step of one operation. `ok` and `diskOk` are the environment's choices: whether
      preparation, the child process or the file system succeeds. */
  datatype Step =
    | StartBegin(app: AppId)
    | StopBegin(app: AppId)
    | Mint(op: OpId, base: string, stampMs: nat, specRef: string)
    | Local(op: OpId, ok: bool)
    | Kill(op: OpId, victim: InstanceId)
    | Acquire(op: OpId)
    | Write(op: OpId, diskOk: bool)
    | Install(op: OpId)
    | Cancel(op: OpId)

  predicate IsStart(op: Op) { op.Preparing? || op.Start? }

  predicate HoldsLock(s: Host, o: OpId) { !s.lock.Free? && s.lock.holder == o }

  /** The operation returns or is dropped; a start drops its in-flight guard. */
  function End(s: Host, o: OpId): Host
    requires o in s.ops
  {
    s.(ops := s.ops - {o},
       inflight := if IsStart(s.ops[o]) then s.inflight - {s.ops[o].app} else s.inflight)
  }

  function Become(s: Host, o: OpId, op: Op): Host {
    s.(ops := s.ops[o := op])
  }

  function Goto(s: Host, o: OpId, pc: StartPc): Host
    requires o in s.ops && s.ops[o].Start?
  {
    Become(s, o, s.ops[o].(pc := pc))
  }

  // ---- Starting operations ----

  /** `StartInflightGuard::try_acquire`: a second start of an app in flight is refused. */
  function BeginStart(s: Host, app: AppId): Host {
    if app in s.inflight then s
    else s.(ops := s.ops[s.nextOp := Preparing(app)], inflight := s.inflight + {app}, nextOp := s.nextOp + 1)
  }

  function BeginStop(s: Host, app: AppId): Host {
    s.(ops := s.ops[s.nextOp := StopCollecting(app, Route(s.mem.contents, app).active)], nextOp := s.nextOp + 1)
  }

  /** `replacement_instance_id`: the counter is incremented atomically. */
  function MintId(s: Host, o: OpId, base: string, stampMs: nat, specRef: string): Host {
    if o in s.ops && s.ops[o].Preparing? then
      var app := s.ops[o].app;
      Become(s.(nextCounter := s.nextCounter + 1), o,
             Start(app, Minted(app, base, stampMs, s.nextCounter), specRef, Registering))
    else s
  }

  // ---- Steps outside the mutation lock ----

  function StartLocal(s: Host, o: OpId, ok: bool): Host
    requires o in s.ops && s.ops[o].Start?
  {
    var id := s.ops[o].id;
    match s.ops[o].pc
    case Registering => if ok then s else End(s, o)
    case SpawnChecking(rev) => Goto(s, o, if id in s.pool then EndpointDropping else Booting(rev))
    case Booting(rev) => Goto(s, o, if ok then SpawnInserting(rev) else EndpointDropping)
    case SpawnInserting(rev) =>
      if id in s.pool then Goto(s, o, EndpointDropping)
      else Goto(s, o, EndpointRegistering(rev)).(pool := s.pool + {id})
    case EndpointRegistering(rev) => Goto(s, o, CuttingOver(rev)).(endpoints := s.endpoints + {id})
    case AbortStopping => Goto(s, o, EndpointDropping).(pool := s.pool - {id})
    case EndpointDropping => Goto(s, o, Discarding).(endpoints := s.endpoints - {id})
    case Draining(previous) => Goto(s, o, RetireDropping(previous)).(pool := s.pool - {previous})
    case RetireDropping(previous) => Goto(s, o, Retiring(previous)).(endpoints := s.endpoints - {previous})
    case _ => s
  }

  /** The ids a stop will take down: the app's pooled instances and the active read earlier. */
  function StopTargets(s: Host, app: AppId, active: Option<InstanceId>): set<InstanceId> {
    (set x | x in s.pool && OwnedBy(x, app)) + (if active.Some? then {active.value} else {})
  }

  function LocalStep(s: Host, o: OpId, ok: bool): Host {
    if o !in s.ops || HoldsLock(s, o) then s
    else
      match s.ops[o]
      case Preparing(_) => if ok then s else End(s, o)
      case Start(_, _, _, _) => StartLocal(s, o, ok)
      case StopCollecting(app, active) =>
        var ids := StopTargets(s, app, active);
        if ids == {} then End(s, o) else Become(s, o, StopCommitting(app, ids))
      case StopCommitting(_, _) => s
      case StopKilling(_, ids) => if ids == {} then End(s, o) else s
  }

  /** One of the concurrent `stop_from` calls at the end of a stop. */
  function KillStep(s: Host, o: OpId, victim: InstanceId): Host {
    if o in s.ops && s.ops[o].StopKilling? && victim in s.ops[o].ids then
      Become(s, o, s.ops[o].(ids := s.ops[o].ids - {victim})).(pool := s.pool - {victim})
    else s
  }

  /** The operation stands at an await: it is not between the shell lock's section and the step
      before it. */
  predicate AtAwait(op: Op) {
    op.Start? ==> !op.pc.EndpointRegistering? && !op.pc.EndpointDropping? && !op.pc.RetireDropping?
  }

  /** The operation's future is dropped at an await, as when the client of its request hangs up. A
      mutation does not await between its steps, so it is not the lock holder's; a child still
      booting is killed with its handle. */
  function CancelStep(s: Host, o: OpId): Host {
    if o in s.ops && AtAwait(s.ops[o]) && !HoldsLock(s, o) then End(s, o) else s
  }

  // ---- The manifest mutation ----

  predicate Mutates(op: Op) {
    || op.StopCommitting?
    || (op.Start? && (op.pc.Registering? || op.pc.CuttingOver? || op.pc.Discarding? || op.pc.Retiring?))
  }

  /** What the mutation would install over contents `c`; `None` when a cutover is refused. */
  function Edited(op: Op, c: Contents): Option<Contents>
    requires Mutates(op)
  {
    match op
    case StopCommitting(app, ids) => Some(StopEdit(c, app, ids))
    case Start(app, id, specRef, pc) =>
      match pc
      case Registering => Some(RegisterEdit(c, app, id, specRef))
      case CuttingOver(_) => CutoverEdit(c, app, id)
      case Discarding => Some(DiscardEdit(c, app, id))
      case Retiring(previous) => Some(RetireEdit(c, previous))
  }

  /** The manifest a mutation starts from. A cutover rereads the disk when memory has no revision. */
  function BaseManifest(s: Host, op: Op): Manifest {
    if op.Start? && op.pc.CuttingOver? && s.mem.revision == Unset then s.disk.GetOr(EmptyManifest()) else s.mem
  }

  /** The checks `execute_cutover` makes before editing: expected revision, then readiness. */
  predicate Admitted(s: Host, op: Op) {
    op.Start? && op.pc.CuttingOver? ==>
      BaseManifest(s, op).revision == op.pc.revision && (op.id in s.endpoints || op.id in s.pool)
  }

  /** How an operation goes on when its mutation failed; the lock is released. */
  function Failed(s: Host, o: OpId): Host
    requires o in s.ops
  {
    if s.ops[o].Start? && s.ops[o].pc.CuttingOver? then Goto(s, o, AbortStopping).(lock := Free)
    else End(s, o).(lock := Free)
  }

  /** How an operation goes on once manifest `n` is installed. */
  function Installed(s: Host, o: OpId, n: Manifest): Host
    requires o in s.ops && Mutates(s.ops[o])
  {
    var t := s.(mem := n, lock := Free);
    match s.ops[o]
    case StopCommitting(app, ids) => Become(t, o, StopKilling(app, ids)).(endpoints := s.endpoints - ids)
    case Start(app, id, _, pc) =>
      match pc
      case Registering => Goto(t, o, SpawnChecking(n.revision))
      case CuttingOver(_) =>
        var previous := Route(n.contents, app).previous;
        if previous.Some? && previous.value != id then Goto(t, o, Draining(previous.value)) else End(t, o)
      case _ => End(t, o)
  }

  function AcquireStep(s: Host, o: OpId): Host {
    if o in s.ops && Mutates(s.ops[o]) && s.lock.Free? then
      var base := BaseManifest(s, s.ops[o]);
      var next := Edited(s.ops[o], base.contents);
      if Admitted(s, s.ops[o]) && next.Some?
      then s.(lock := Computed(o, base.revision, WithRecomputedRevision(next.value)))
      else Failed(s, o)
    else s
  }

  function WriteStep(s: Host, o: OpId, diskOk: bool): Host {
    if o in s.ops && s.lock.Computed? && s.lock.holder == o then
      match WriteIfRevisionMatches(s.disk, s.lock.expected, s.lock.next, diskOk)
      case Success(disk) => s.(disk := disk, lock := Written(o, s.lock.next))
      case Failure(_) => Failed(s, o)
    else s
  }

  function InstallStep(s: Host, o: OpId): Host {
    if o in s.ops && Mutates(s.ops[o]) && s.lock.Written? && s.lock.holder == o
    then Installed(s, o, s.lock.next)
    else s
  }

  /** The three steps of a mutation, run without interruption. */
  function Mutated(s: Host, o: OpId, diskOk: bool): Host {
    InstallStep(WriteStep(AcquireStep(s, o), o, diskOk), o)
  }

  // ---- Runs ----

  /** One step; a step that is not enabled changes nothing. */
  function Apply(s: Host, step: Step): Host {
    match step
    case StartBegin(app) => BeginStart(s, app)
    case StopBegin(app) => BeginStop(s, app)
    case Mint(o, base, stampMs, specRef) => MintId(s, o, base, stampMs, specRef)
    case Local(o, ok) => LocalStep(s, o, ok)
    case Kill(o, victim) => KillStep(s, o, victim)
    case Acquire(o) => AcquireStep(s, o)
    case Write(o, diskOk) => WriteStep(s, o, diskOk)
    case Install(o) => InstallStep(s, o)
    case Cancel(o) => CancelStep(s, o)
  }

  function Exec(s: Host, steps: seq<Step>): Host
    decreases |steps|
  {
    if steps == [] then s else Apply(Exec(s, steps[..|steps| - 1]), steps[|steps| - 1])
  }

  /** The state a bootstrap leaves: nothing runs, no route is active, the manifest holds only ids
      of earlier processes, and memory and disk agree. */
  ghost predicate Init(s: Host) {
    && s.lock == Free && s.pool == {} && s.endpoints == {} && s.inflight == {} && s.ops == map[]
    && s.disk == Some(s.mem)
    && Idle(s.mem.contents)
  }

  ghost predicate Idle(c: Contents) {
    && (forall x :: x in c.instances ==> x.Persisted?)
    && (forall app :: app in c.routes ==>
          && c.routes[app].active == None
          && (c.routes[app].candidate.Some? ==> c.routes[app].candidate.value.Persisted?))
  }
}
