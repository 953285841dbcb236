/** Invariants of the launch protocol over every interleaving, and what they give. */
module LaunchSafety {
  import opened Wrappers
  import opened LaunchManifests
  import opened LaunchProtocol

  // ---- The invariant ----

  predicate Known(s: Host, x: InstanceId) { x.Minted? ==> x.counter < s.nextCounter }

  /** No route targets `x`, now or as candidate. */
  ghost predicate Unrouted(c: Contents, x: InstanceId) {
    forall app :: Route(c, app).active != Some(x) && Route(c, app).candidate != Some(x)
  }

  ghost predicate NotActive(c: Contents, x: InstanceId) {
    forall app :: Route(c, app).active != Some(x)
  }

  predicate Coherent(m: Manifest) { m.revision == Sha(m.contents) }

  predicate HasRevision(pc: StartPc) {
    pc.SpawnChecking? || pc.Booting? || pc.SpawnInserting? || pc.EndpointRegistering? || pc.CuttingOver?
  }

  /** Where the start's own process is not in the pool: not yet inserted, or already taken out. */
  predicate Unpooled(pc: StartPc) {
    pc.Registering? || pc.SpawnChecking? || pc.Booting? || pc.SpawnInserting? || pc.EndpointDropping? || pc.Discarding?
  }

  predicate Retires(pc: StartPc) { pc.Draining? || pc.RetireDropping? || pc.Retiring? }

  /** Memory and disk hold the same manifest, except between the holder's write and its install. */
  ghost predicate Agree(s: Host) {
    s.disk == Some(if s.lock.Written? then s.lock.next else s.mem)
  }

  /** What the lock holder carries is its edit of the manifest now in memory. */
  ghost predicate LockInv(s: Host) {
    !s.lock.Free? ==>
      var o := s.lock.holder;
      && o in s.ops && Mutates(s.ops[o])
      && Edited(s.ops[o], s.mem.contents).Some?
      && s.lock.next == WithRecomputedRevision(Edited(s.ops[o], s.mem.contents).value)
      && (s.lock.Computed? ==> s.lock.expected == s.mem.revision)
      && (s.ops[o].Start? && s.ops[o].pc.CuttingOver? ==> s.mem.revision == s.ops[o].pc.revision)
  }

  ghost predicate RouteOk(s: Host, app: AppId, route: RouteBinding) {
    && (route.active.Some? ==> OwnedBy(route.active.value, app) && Known(s, route.active.value))
    && (route.candidate.Some? ==>
          Known(s, route.candidate.value) && (route.candidate.value.Minted? ==> OwnedBy(route.candidate.value, app)))
  }

  ghost predicate ManifestInv(s: Host) {
    && (forall app :: RouteOk(s, app, Route(s.mem.contents, app)))
    && (forall x :: x in s.mem.contents.instances ==> Known(s, x))
    && (forall x :: x in s.pool ==> x.Minted? && Known(s, x))
  }

  /** The safety property: an active instance is in the pool and desired Running. */
  ghost predicate ActiveServed(s: Host) {
    forall app :: Route(s.mem.contents, app).active.Some? ==>
      var x := Route(s.mem.contents, app).active.value;
      && x in s.pool
      && x in s.mem.contents.instances
      && s.mem.contents.instances[x].state == Running
  }

  ghost predicate StartOk(s: Host, app: AppId, id: InstanceId, pc: StartPc) {
    && app in s.inflight && OwnedBy(id, app) && Known(s, id)
    && (Retires(pc) ==>
          OwnedBy(pc.previous, app) && Known(s, pc.previous) && Unrouted(s.mem.contents, pc.previous))
    && (!Retires(pc) ==> NotActive(s.mem.contents, id))
    && (pc.Registering? ==> Unrouted(s.mem.contents, id) && id !in s.mem.contents.instances)
    && (Unpooled(pc) ==> id !in s.pool)
    && (HasRevision(pc) ==>
          && Coherent(s.mem)
          && pc.revision.Sha?
          && Route(pc.revision.contents, app).candidate == Some(id))
    && ((pc.EndpointRegistering? || pc.CuttingOver?) && Route(s.mem.contents, app).candidate == Some(id) ==>
          id in s.pool)
  }

  ghost predicate OpOk(s: Host, op: Op) {
    match op
    case Preparing(app) => app in s.inflight
    case Start(app, id, _, pc) => StartOk(s, app, id, pc)
    case StopCollecting(app, active) => active.Some? ==> OwnedBy(active.value, app) && Known(s, active.value)
    case StopCommitting(app, ids) => forall x :: x in ids ==> OwnedBy(x, app) && Known(s, x)
    case StopKilling(app, ids) =>
      forall x :: x in ids ==> OwnedBy(x, app) && Known(s, x) && Unrouted(s.mem.contents, x)
  }

  predicate Mentions(op: Op, x: InstanceId) {
    match op
    case Preparing(_) => false
    case Start(_, id, _, pc) => x == id || (Retires(pc) && pc.previous == x)
    case StopCollecting(_, active) => active == Some(x)
    case StopCommitting(_, ids) => x in ids
    case StopKilling(_, ids) => x in ids
  }

  /** Two operations never start the same app, and an id not yet registered is its owner's alone. */
  predicate Compatible(a: Op, b: Op) {
    && (IsStart(a) && IsStart(b) ==> a.app != b.app)
    && (a.Start? && a.pc.Registering? ==> !Mentions(b, a.id))
    && (b.Start? && b.pc.Registering? ==> !Mentions(a, b.id))
  }

  ghost predicate OpsInv(s: Host) {
    && (forall o :: o in s.ops ==> o < s.nextOp && OpOk(s, s.ops[o]))
    && (forall o, p :: o in s.ops && p in s.ops && o != p ==> Compatible(s.ops[o], s.ops[p]))
  }

  ghost predicate Inv(s: Host) {
    Agree(s) && LockInv(s) && ManifestInv(s) && ActiveServed(s) && OpsInv(s)
  }

  // ---- Every step keeps it ----

  lemma InitInv(s: Host)
    requires Init(s)
    ensures Inv(s)
  {
  }

  /** To re-establish the operations' part after operation `o` moved, look at `o` and at how the
      others' facts survive. */
  lemma OpsAfter(s: Host, t: Host, o: OpId)
    requires OpsInv(s) && s.nextOp <= t.nextOp
    requires forall p :: p in t.ops && p != o ==> p in s.ops && t.ops[p] == s.ops[p]
    requires forall p :: p in t.ops && p != o ==> OpOk(t, s.ops[p])
    requires o in t.ops ==> o < t.nextOp && OpOk(t, t.ops[o])
    requires o in t.ops ==> forall p :: p in t.ops && p != o ==> Compatible(t.ops[o], s.ops[p])
    ensures OpsInv(t)
  {
  }

  /** Facts about an operation survive when the manifest stays and the pool only grows or loses
      an id that no start is about to cut over to. */
  lemma OpOkSurvives(s: Host, t: Host, op: Op)
    requires OpOk(s, op)
    requires t.mem == s.mem && s.nextCounter <= t.nextCounter
    requires IsStart(op) ==> op.app in t.inflight
    requires op.Start? && Unpooled(op.pc) && op.id in t.pool ==> op.id in s.pool
    requires
      && op.Start? && (op.pc.EndpointRegistering? || op.pc.CuttingOver?)
      && Route(s.mem.contents, op.app).candidate == Some(op.id)
      && op.id in s.pool
      ==> op.id in t.pool
    ensures OpOk(t, op)
  {
  }

  lemma BeginStartKeepsInv(s: Host, app: AppId)
    requires Inv(s)
    ensures Inv(BeginStart(s, app))
  {
    if app !in s.inflight {
      var t := BeginStart(s, app);
      forall p | p in t.ops && p != s.nextOp ensures OpOk(t, s.ops[p]) { OpOkSurvives(s, t, s.ops[p]); }
      OpsAfter(s, t, s.nextOp);
    }
  }

  lemma BeginStopKeepsInv(s: Host, app: AppId)
    requires Inv(s)
    ensures Inv(BeginStop(s, app))
  {
    var t := BeginStop(s, app);
    assert RouteOk(s, app, Route(s.mem.contents, app));
    forall p | p in t.ops && p != s.nextOp ensures OpOk(t, s.ops[p]) { OpOkSurvives(s, t, s.ops[p]); }
    OpsAfter(s, t, s.nextOp);
  }

  lemma MintKeepsInv(s: Host, o: OpId, base: string, stampMs: nat, specRef: string)
    requires Inv(s)
    ensures Inv(MintId(s, o, base, stampMs, specRef))
  {
    if o in s.ops && s.ops[o].Preparing? {
      var t := MintId(s, o, base, stampMs, specRef);
      forall p | p in t.ops && p != o ensures OpOk(t, s.ops[p]) { OpOkSurvives(s, t, s.ops[p]); }
      OpsAfter(s, t, o);
    }
  }

  lemma EndKeepsInv(s: Host, o: OpId)
    requires Inv(s) && o in s.ops && !HoldsLock(s, o)
    ensures Inv(End(s, o))
  {
    var t := End(s, o);
    forall p | p in t.ops && p != o ensures OpOk(t, s.ops[p]) {
      assert Compatible(s.ops[o], s.ops[p]);
      OpOkSurvives(s, t, s.ops[p]);
    }
    OpsAfter(s, t, o);
  }

  /** A start moving on without touching the manifest, while the pool becomes `pool`. */
  lemma GotoKeepsInv(s: Host, o: OpId, pc: StartPc, pool: set<InstanceId>, endpoints: set<InstanceId>)
    requires Inv(s) && o in s.ops && s.ops[o].Start? && !s.ops[o].pc.Registering? && !HoldsLock(s, o)
    requires Retires(pc) ==> Retires(s.ops[o].pc) && pc.previous == s.ops[o].pc.previous
    requires StartOk(s.(pool := pool), s.ops[o].app, s.ops[o].id, pc)
    requires !pc.Registering?
    requires forall x :: x in s.pool && x !in pool ==> NotActive(s.mem.contents, x)
    requires forall x, app :: x in s.pool && x !in pool && app != s.ops[o].app ==>
               Route(s.mem.contents, app).candidate != Some(x)
    requires forall x :: x in pool && x !in s.pool ==> x == s.ops[o].id
    ensures Inv(Goto(s, o, pc).(pool := pool, endpoints := endpoints))
  {
    var t := Goto(s, o, pc).(pool := pool, endpoints := endpoints);
    assert OpOk(s, s.ops[o]);
    forall p | p in t.ops && p != o ensures OpOk(t, s.ops[p]) && Compatible(t.ops[o], s.ops[p]) {
      assert Compatible(s.ops[o], s.ops[p]);
      OpOkSurvives(s, t, s.ops[p]);
    }
    assert OpOk(t, t.ops[o]);
    OpsAfter(s, t, o);
  }

  lemma SpawnStepKeepsInv(s: Host, o: OpId, ok: bool)
    requires Inv(s) && o in s.ops && s.ops[o].Start? && !HoldsLock(s, o)
    requires HasRevision(s.ops[o].pc)
    ensures Inv(StartLocal(s, o, ok))
  {
    var id := s.ops[o].id;
    assert StartOk(s, s.ops[o].app, id, s.ops[o].pc);
    match s.ops[o].pc
    case SpawnChecking(rev) =>
      GotoKeepsInv(s, o, if id in s.pool then EndpointDropping else Booting(rev), s.pool, s.endpoints);
    case Booting(rev) =>
      GotoKeepsInv(s, o, if ok then SpawnInserting(rev) else EndpointDropping, s.pool, s.endpoints);
    case SpawnInserting(rev) =>
      if id in s.pool {
        GotoKeepsInv(s, o, EndpointDropping, s.pool, s.endpoints);
      } else {
        GotoKeepsInv(s, o, EndpointRegistering(rev), s.pool + {id}, s.endpoints);
      }
    case EndpointRegistering(rev) => GotoKeepsInv(s, o, CuttingOver(rev), s.pool, s.endpoints + {id});
    case CuttingOver(_) =>
  }

  lemma UndoStepKeepsInv(s: Host, o: OpId, ok: bool)
    requires Inv(s) && o in s.ops && s.ops[o].Start? && !HoldsLock(s, o)
    requires !HasRevision(s.ops[o].pc) && !s.ops[o].pc.Registering?
    ensures Inv(StartLocal(s, o, ok))
  {
    var app, id := s.ops[o].app, s.ops[o].id;
    assert StartOk(s, app, id, s.ops[o].pc);
    forall b | b != app ensures Route(s.mem.contents, b).candidate != Some(id) {
      assert RouteOk(s, b, Route(s.mem.contents, b));
    }
    match s.ops[o].pc
    case AbortStopping => GotoKeepsInv(s, o, EndpointDropping, s.pool - {id}, s.endpoints);
    case EndpointDropping => GotoKeepsInv(s, o, Discarding, s.pool, s.endpoints - {id});
    case Discarding =>
    case Draining(x) => GotoKeepsInv(s, o, RetireDropping(x), s.pool - {x}, s.endpoints);
    case RetireDropping(x) => GotoKeepsInv(s, o, Retiring(x), s.pool, s.endpoints - {x});
    case Retiring(_) =>
  }

  lemma StartLocalKeepsInv(s: Host, o: OpId, ok: bool)
    requires Inv(s) && o in s.ops && s.ops[o].Start? && !HoldsLock(s, o)
    ensures Inv(StartLocal(s, o, ok))
  {
    if s.ops[o].pc.Registering? {
      EndKeepsInv(s, o);
    } else if HasRevision(s.ops[o].pc) {
      SpawnStepKeepsInv(s, o, ok);
    } else {
      UndoStepKeepsInv(s, o, ok);
    }
  }

  lemma LocalKeepsInv(s: Host, o: OpId, ok: bool)
    requires Inv(s)
    ensures Inv(LocalStep(s, o, ok))
  {
    if o in s.ops && !HoldsLock(s, o) {
      var t := LocalStep(s, o, ok);
      match s.ops[o]
      case Preparing(_) => EndKeepsInv(s, o);
      case Start(_, _, _, _) => StartLocalKeepsInv(s, o, ok);
      case StopCollecting(app, active) =>
        var ids := StopTargets(s, app, active);
        if ids == {} {
          EndKeepsInv(s, o);
        } else {
          assert OpOk(s, s.ops[o]);
          forall p | p in t.ops && p != o ensures OpOk(t, s.ops[p]) && Compatible(t.ops[o], s.ops[p]) {
            assert Compatible(s.ops[o], s.ops[p]);
            OpOkSurvives(s, t, s.ops[p]);
          }
          OpsAfter(s, t, o);
        }
      case StopCommitting(_, _) =>
      case StopKilling(_, _) => EndKeepsInv(s, o);
    }
  }

  lemma KillKeepsInv(s: Host, o: OpId, victim: InstanceId)
    requires Inv(s)
    ensures Inv(KillStep(s, o, victim))
  {
    if o in s.ops && s.ops[o].StopKilling? && victim in s.ops[o].ids {
      var t := KillStep(s, o, victim);
      assert OpOk(s, s.ops[o]);
      forall p | p in t.ops && p != o ensures OpOk(t, s.ops[p]) && Compatible(t.ops[o], s.ops[p]) {
        assert Compatible(s.ops[o], s.ops[p]);
        OpOkSurvives(s, t, s.ops[p]);
      }
      OpsAfter(s, t, o);
    }
  }

  // ---- The mutation lock ----

  lemma ReleaseKeepsInv(s: Host)
    requires Inv(s) && (s.lock.Free? || s.lock.Computed?)
    ensures Inv(s.(lock := Free))
  {
    var f := s.(lock := Free);
    forall p | p in f.ops ensures OpOk(f, f.ops[p]) { OpOkSurvives(s, f, s.ops[p]); }
  }

  lemma FailedKeepsInv(s: Host, o: OpId)
    requires Inv(s) && o in s.ops && Mutates(s.ops[o])
    requires s.lock.Free? || (s.lock.Computed? && s.lock.holder == o)
    ensures Inv(Failed(s, o))
  {
    var f := s.(lock := Free);
    ReleaseKeepsInv(s);
    if s.ops[o].Start? && s.ops[o].pc.CuttingOver? {
      assert OpOk(f, s.ops[o]);
      GotoKeepsInv(f, o, AbortStopping, f.pool, f.endpoints);
      assert Failed(s, o) == Goto(f, o, AbortStopping);
    } else {
      EndKeepsInv(f, o);
      assert Failed(s, o) == End(f, o);
    }
  }

  /** Taking the lock: the base manifest is the one in memory, also when it is reread from disk. */
  lemma AcquireKeepsInv(s: Host, o: OpId)
    requires Inv(s)
    ensures Inv(AcquireStep(s, o))
  {
    if o in s.ops && Mutates(s.ops[o]) && s.lock.Free? {
      var t := AcquireStep(s, o);
      assert BaseManifest(s, s.ops[o]) == s.mem;
      if t.lock.Free? {
        FailedKeepsInv(s, o);
      } else {
        forall p | p in t.ops ensures OpOk(t, t.ops[p]) { OpOkSurvives(s, t, s.ops[p]); }
      }
    }
  }

  lemma WriteKeepsInv(s: Host, o: OpId, diskOk: bool)
    requires Inv(s)
    ensures Inv(WriteStep(s, o, diskOk))
  {
    if o in s.ops && s.lock.Computed? && s.lock.holder == o {
      var t := WriteStep(s, o, diskOk);
      if t.lock.Free? {
        FailedKeepsInv(s, o);
      } else {
        forall p | p in t.ops ensures OpOk(t, t.ops[p]) { OpOkSurvives(s, t, s.ops[p]); }
      }
    }
  }

  // ---- Installing a manifest ----

  /** What any edit may do to routes and instances. */
  lemma EditShape(op: Op, c: Contents)
    requires Mutates(op) && Edited(op, c).Some?
    ensures
      var d := Edited(op, c).value;
      && (forall b :: b != op.app ==> Route(d, b) == Route(c, b))
      && (Route(d, op.app).active in {None, Route(c, op.app).active}
          || (op.Start? && op.pc.CuttingOver? && Route(d, op.app).active == Some(op.id)))
      && (Route(d, op.app).candidate in {None, Route(c, op.app).candidate}
          || (op.Start? && op.pc.Registering? && Route(d, op.app).candidate == Some(op.id)))
      && (forall x :: x in d.instances ==> x in c.instances || (op.Start? && op.pc.Registering? && x == op.id))
  {
  }

  /** A cutover that is admitted finds its own registration: its id is still the candidate. */
  lemma CutoverFindsCandidate(s: Host, o: OpId)
    requires Inv(s) && HoldsLock(s, o) && s.ops[o].Start? && s.ops[o].pc.CuttingOver?
    ensures Route(s.mem.contents, s.ops[o].app).candidate == Some(s.ops[o].id)
    ensures s.ops[o].id in s.pool
    ensures NotActive(s.mem.contents, s.ops[o].id)
  {
    assert StartOk(s, s.ops[o].app, s.ops[o].id, s.ops[o].pc);
  }

  lemma UnroutedSurvives(op: Op, c: Contents, x: InstanceId)
    requires Mutates(op) && Edited(op, c).Some?
    ensures Unrouted(c, x) && (op.Start? ==> x != op.id) ==> Unrouted(Edited(op, c).value, x)
  {
    EditShape(op, c);
    forall b | Unrouted(c, x) ensures Route(c, b).active != Some(x) && Route(c, b).candidate != Some(x) {}
  }

  lemma OthersSurviveInstall(s: Host, o: OpId, p: OpId)
    requires Inv(s) && s.lock.Written? && s.lock.holder == o && p in s.ops && p != o
    ensures OpOk(InstallStep(s, o), s.ops[p])
  {
    var op, q := s.ops[o], s.ops[p];
    assert Compatible(op, q) && OpOk(s, op) && OpOk(s, q);
    EditShape(op, s.mem.contents);
    if op.Start? && op.pc.CuttingOver? { CutoverFindsCandidate(s, o); }
    forall x | Mentions(q, x) { UnroutedSurvives(op, s.mem.contents, x); }
  }

  lemma InstalledManifestOk(s: Host, o: OpId)
    requires Inv(s) && s.lock.Written? && s.lock.holder == o
    ensures ManifestInv(InstallStep(s, o))
  {
    var op := s.ops[o];
    var t := InstallStep(s, o);
    assert OpOk(s, op);
    EditShape(op, s.mem.contents);
    forall app ensures RouteOk(t, app, Route(t.mem.contents, app)) {
      assert RouteOk(s, app, Route(s.mem.contents, app));
    }
  }

  lemma InstalledActiveServed(s: Host, o: OpId)
    requires Inv(s) && s.lock.Written? && s.lock.holder == o
    ensures ActiveServed(InstallStep(s, o))
  {
    var op := s.ops[o];
    var t := InstallStep(s, o);
    var c, d := s.mem.contents, t.mem.contents;
    assert OpOk(s, op);
    EditShape(op, c);
    if op.Start? && op.pc.CuttingOver? { CutoverFindsCandidate(s, o); }
    forall app | Route(d, app).active.Some?
      ensures
        var x := Route(d, app).active.value;
        x in t.pool && x in d.instances && d.instances[x].state == Running
    {
      assert RouteOk(s, app, Route(c, app));
      assert RouteOk(s, op.app, Route(c, op.app));
    }
  }

  lemma InstalledOwnOpOk(s: Host, o: OpId)
    requires Inv(s) && s.lock.Written? && s.lock.holder == o
    ensures var t := InstallStep(s, o); o in t.ops ==> OpOk(t, t.ops[o])
  {
    var op := s.ops[o];
    var t := InstallStep(s, o);
    var c, d := s.mem.contents, t.mem.contents;
    assert OpOk(s, op);
    EditShape(op, c);
    assert RouteOk(s, op.app, Route(c, op.app));
    if op.Start? && op.pc.CuttingOver? { CutoverFindsCandidate(s, o); }
    if o in t.ops {
      forall x | Mentions(t.ops[o], x) && (t.ops[o].Start? ==> x != op.id) ensures Unrouted(d, x) {
        forall b ensures Route(d, b).active != Some(x) && Route(d, b).candidate != Some(x) {
          assert RouteOk(s, b, Route(c, b));
        }
      }
    }
  }

  lemma InstallKeepsInv(s: Host, o: OpId)
    requires Inv(s)
    ensures Inv(InstallStep(s, o))
  {
    if o in s.ops && s.lock.Written? && s.lock.holder == o {
      var t := InstallStep(s, o);
      InstalledManifestOk(s, o);
      InstalledActiveServed(s, o);
      InstalledOwnOpOk(s, o);
      forall p | p in t.ops && p != o ensures OpOk(t, s.ops[p]) && (o in t.ops ==> Compatible(t.ops[o], s.ops[p])) {
        OthersSurviveInstall(s, o, p);
        assert Compatible(s.ops[o], s.ops[p]);
      }
      OpsAfter(s, t, o);
    }
  }

  // ---- Runs ----

  lemma StepKeepsInv(s: Host, step: Step)
    requires Inv(s)
    ensures Inv(Apply(s, step))
  {
    match step
    case StartBegin(app) => BeginStartKeepsInv(s, app);
    case StopBegin(app) => BeginStopKeepsInv(s, app);
    case Mint(o, base, stampMs, specRef) => MintKeepsInv(s, o, base, stampMs, specRef);
    case Local(o, ok) => LocalKeepsInv(s, o, ok);
    case Kill(o, victim) => KillKeepsInv(s, o, victim);
    case Acquire(o) => AcquireKeepsInv(s, o);
    case Write(o, diskOk) => WriteKeepsInv(s, o, diskOk);
    case Install(o) => InstallKeepsInv(s, o);
    case Cancel(o) => if CancelStep(s, o) != s { EndKeepsInv(s, o); }
  }

  lemma {:induction false} RunKeepsInv(s: Host, steps: seq<Step>)
    requires Inv(s)
    ensures Inv(Exec(s, steps))
    decreases |steps|
  {
    if steps != [] {
      RunKeepsInv(s, steps[..|steps| - 1]);
      StepKeepsInv(Exec(s, steps[..|steps| - 1]), steps[|steps| - 1]);
    }
  }
}
