/** The proxy's endpoint table: a routed instance always has its endpoint, and once operations have
    returned the table and the pool name the same processes. */
module LaunchEndpoints {
  import opened Wrappers
  import opened LaunchManifests
  import opened LaunchProtocol
  import opened LaunchSafety

  // ---- A routed instance has an endpoint ----

  predicate AboutToServe(s: Host, op: Op) {
    op.Start? && op.pc.CuttingOver? && Route(s.mem.contents, op.app).candidate == Some(op.id)
  }

  ghost predicate Reachable(s: Host) {
    && (forall app :: Route(s.mem.contents, app).active.Some? ==>
          Route(s.mem.contents, app).active.value in s.endpoints)
    && (forall o :: o in s.ops && AboutToServe(s, s.ops[o]) ==> s.ops[o].id in s.endpoints)
  }

  /** The manifest stays, and so does the endpoint of whatever is or is about to be served. */
  lemma StaysReachable(s: Host, t: Host, o: OpId, gone: set<InstanceId>)
    requires Inv(s) && Reachable(s) && o in s.ops && t.mem == s.mem && t.endpoints >= s.endpoints - gone
    requires forall p :: p in t.ops && p != o ==> p in s.ops && t.ops[p] == s.ops[p]
    requires o in t.ops && AboutToServe(t, t.ops[o]) ==> t.ops[o].id in t.endpoints
    requires forall x :: x in gone ==> NotActive(s.mem.contents, x)
    requires forall x, p :: x in gone && p in s.ops && p != o && AboutToServe(s, s.ops[p]) ==> s.ops[p].id != x
    ensures Reachable(t)
  {
  }

  lemma DropStaysReachable(s: Host, o: OpId, ok: bool, gone: InstanceId)
    requires Inv(s) && Reachable(s) && o in s.ops && s.ops[o].Start? && !HoldsLock(s, o)
    requires (s.ops[o].pc.EndpointDropping? && gone == s.ops[o].id)
             || (s.ops[o].pc.RetireDropping? && gone == s.ops[o].pc.previous)
    ensures Reachable(StartLocal(s, o, ok))
  {
    var op := s.ops[o];
    assert OpOk(s, op);
    forall p | p in s.ops && p != o && AboutToServe(s, s.ops[p]) ensures s.ops[p].id != gone {
      assert Compatible(op, s.ops[p]) && OpOk(s, s.ops[p]);
    }
    StaysReachable(s, StartLocal(s, o, ok), o, {gone});
  }

  lemma QuietStaysReachable(s: Host, o: OpId, ok: bool)
    requires Inv(s) && Reachable(s) && o in s.ops && s.ops[o].Start?
    requires !s.ops[o].pc.EndpointDropping? && !s.ops[o].pc.RetireDropping?
    ensures Reachable(StartLocal(s, o, ok))
  {
    var t := StartLocal(s, o, ok);
    assert t.mem == s.mem && t.endpoints >= s.endpoints;
    if o in t.ops && AboutToServe(t, t.ops[o]) && !s.ops[o].pc.CuttingOver? { assert s.ops[o].id in t.endpoints; }
    StaysReachable(s, t, o, {});
  }

  lemma StartStaysReachable(s: Host, o: OpId, ok: bool)
    requires Inv(s) && Reachable(s) && o in s.ops && s.ops[o].Start? && !HoldsLock(s, o)
    ensures Reachable(StartLocal(s, o, ok))
  {
    var pc := s.ops[o].pc;
    if pc.EndpointDropping? {
      DropStaysReachable(s, o, ok, s.ops[o].id);
    } else if pc.RetireDropping? {
      DropStaysReachable(s, o, ok, pc.previous);
    } else {
      QuietStaysReachable(s, o, ok);
    }
  }

  lemma LocalStaysReachable(s: Host, o: OpId, ok: bool)
    requires Inv(s) && Reachable(s)
    ensures Reachable(LocalStep(s, o, ok))
  {
    if o in s.ops && !HoldsLock(s, o) {
      if s.ops[o].Start? { StartStaysReachable(s, o, ok); } else { StaysReachable(s, LocalStep(s, o, ok), o, {}); }
    }
  }

  lemma InstallStaysReachable(s: Host, o: OpId)
    requires Inv(s) && Reachable(s)
    ensures Reachable(InstallStep(s, o))
  {
    if o in s.ops && s.lock.Written? && s.lock.holder == o {
      var t, op, c := InstallStep(s, o), s.ops[o], s.mem.contents;
      assert OpOk(s, op);
      EditShape(op, c);
      if op.Start? && op.pc.CuttingOver? { CutoverFindsCandidate(s, o); }
      forall app | Route(t.mem.contents, app).active.Some?
        ensures Route(t.mem.contents, app).active.value in t.endpoints
      {
        assert RouteOk(s, app, Route(c, app));
      }
      forall p | p in t.ops && AboutToServe(t, t.ops[p]) ensures t.ops[p].id in t.endpoints {
        if p != o { assert Compatible(op, s.ops[p]) && OpOk(s, s.ops[p]); }
      }
    }
  }

  lemma MutationStaysReachable(s: Host, step: Step)
    requires Inv(s) && Reachable(s) && (step.Acquire? || step.Write?)
    ensures Reachable(Apply(s, step))
  {
    var o, t := step.op, Apply(s, step);
    if t != s && t.lock.Free? {
      assert t == Failed(s, o);
      StaysReachable(s, t, o, {});
    }
  }

  lemma StepStaysReachable(s: Host, step: Step)
    requires Inv(s) && Reachable(s)
    ensures Reachable(Apply(s, step))
  {
    if step.Local? {
      LocalStaysReachable(s, step.op, step.ok);
    } else if step.Install? {
      InstallStaysReachable(s, step.op);
    } else if step.Acquire? || step.Write? {
      MutationStaysReachable(s, step);
    } else if !step.StartBegin? && !step.StopBegin? && Apply(s, step) != s {
      StaysReachable(s, Apply(s, step), step.op, {});
    }
  }

  lemma {:induction false} RunStaysReachable(s: Host, steps: seq<Step>)
    requires Init(s)
    ensures Inv(Exec(s, steps)) && Reachable(Exec(s, steps))
    decreases |steps|
  {
    if steps == [] {
      InitInv(s);
    } else {
      RunStaysReachable(s, steps[..|steps| - 1]);
      StepKeepsInv(Exec(s, steps[..|steps| - 1]), steps[|steps| - 1]);
      StepStaysReachable(Exec(s, steps[..|steps| - 1]), steps[|steps| - 1]);
    }
  }

  /** In every reachable state the active instance of every app has its endpoint registered. */
  lemma ActiveRoutesHaveEndpoints(s: Host, steps: seq<Step>, app: AppId)
    requires Init(s)
    ensures
      var t := Exec(s, steps);
      Route(t.mem.contents, app).active.Some? ==> Route(t.mem.contents, app).active.value in t.endpoints
  {
    RunStaysReachable(s, steps);
  }

  // ---- Endpoints and pool ----

  /** The start is about to give up, or may have to, and will drop the endpoint of its own `x`. */
  predicate Undoes(op: Op, x: InstanceId) {
    op.Start? && op.id == x && (op.pc.CuttingOver? || op.pc.AbortStopping? || op.pc.EndpointDropping?)
  }

  predicate DropsEndpoint(op: Op, x: InstanceId) {
    Undoes(op, x) || (op.Start? && op.pc.RetireDropping? && op.pc.previous == x)
  }

  predicate AddsEndpoint(op: Op, x: InstanceId) { op.Start? && op.id == x && op.pc.EndpointRegistering? }

  predicate Kills(op: Op, x: InstanceId) { op.StopKilling? && x in op.ids }

  ghost predicate Leaving(s: Host, x: InstanceId) { exists o :: o in s.ops && DropsEndpoint(s.ops[o], x) }

  ghost predicate GivingUp(s: Host, x: InstanceId) { exists o :: o in s.ops && Undoes(s.ops[o], x) }

  ghost predicate Joining(s: Host, x: InstanceId) { exists o :: o in s.ops && AddsEndpoint(s.ops[o], x) }

  ghost predicate Dying(s: Host, x: InstanceId) { exists o :: o in s.ops && Kills(s.ops[o], x) }

  /** An endpoint without a process is about to be dropped; a process without an endpoint is about
      to get one or to be killed. */
  ghost predicate Matched(s: Host, x: InstanceId) {
    && (x in s.endpoints && x !in s.pool ==> Leaving(s, x))
    && (x in s.pool && x !in s.endpoints ==> Joining(s, x) || Dying(s, x))
    && (x in s.endpoints && Dying(s, x) ==> GivingUp(s, x))
  }

  /** A process that is being retired belongs to no start that is still under way, and once drained
      it is not in the pool. */
  ghost predicate RetiredIsDone(s: Host) {
    forall o :: o in s.ops && s.ops[o].Start? && Retires(s.ops[o].pc) ==>
      var x := s.ops[o].pc.previous;
      && (s.ops[o].pc.RetireDropping? ==> x !in s.pool)
      && forall p :: p in s.ops && s.ops[p].Start? && s.ops[p].id == x ==> Retires(s.ops[p].pc)
  }

  ghost predicate EndpointsInv(s: Host) { (forall x :: Matched(s, x)) && RetiredIsDone(s) }

  ghost predicate OthersSame(s: Host, t: Host, o: OpId) {
    forall p :: p != o ==> (p in s.ops <==> p in t.ops) && (p in s.ops ==> t.ops[p] == s.ops[p])
  }

  lemma Carried(s: Host, t: Host, o: OpId, x: InstanceId)
    requires OthersSame(s, t, o)
    ensures Leaving(s, x) ==> Leaving(t, x) || (o in s.ops && DropsEndpoint(s.ops[o], x))
    ensures GivingUp(s, x) ==> GivingUp(t, x) || (o in s.ops && Undoes(s.ops[o], x))
    ensures Joining(s, x) ==> Joining(t, x) || (o in s.ops && AddsEndpoint(s.ops[o], x))
    ensures Dying(s, x) ==> Dying(t, x) || (o in s.ops && Kills(s.ops[o], x))
    ensures Dying(t, x) ==> Dying(s, x) || (o in t.ops && Kills(t.ops[o], x))
    ensures o in t.ops && DropsEndpoint(t.ops[o], x) ==> Leaving(t, x)
    ensures o in t.ops && Undoes(t.ops[o], x) ==> GivingUp(t, x)
    ensures o in t.ops && AddsEndpoint(t.ops[o], x) ==> Joining(t, x)
    ensures o in t.ops && Kills(t.ops[o], x) ==> Dying(t, x)
    ensures GivingUp(t, x) ==> Leaving(t, x)
  {
    if GivingUp(t, x) { var p :| p in t.ops && Undoes(t.ops[p], x); assert DropsEndpoint(t.ops[p], x); }
  }

  lemma SpawnKeepsMatched(s: Host, o: OpId, ok: bool, x: InstanceId)
    requires EndpointsInv(s) && o in s.ops && s.ops[o].Start?
    requires s.ops[o].pc.SpawnInserting? || s.ops[o].pc.EndpointRegistering?
    ensures Matched(StartLocal(s, o, ok), x)
  {
    assert Matched(s, x);
    Carried(s, StartLocal(s, o, ok), o, x);
  }

  lemma UndoKeepsMatched(s: Host, o: OpId, ok: bool, x: InstanceId)
    requires Inv(s) && EndpointsInv(s) && o in s.ops && s.ops[o].Start? && !HoldsLock(s, o)
    requires s.ops[o].pc.AbortStopping? || s.ops[o].pc.EndpointDropping?
    ensures Matched(StartLocal(s, o, ok), x)
  {
    assert StartOk(s, s.ops[o].app, s.ops[o].id, s.ops[o].pc) && Matched(s, x);
    Carried(s, StartLocal(s, o, ok), o, x);
  }

  lemma RetireKeepsMatched(s: Host, o: OpId, ok: bool, x: InstanceId)
    requires EndpointsInv(s) && o in s.ops && s.ops[o].Start? && Retires(s.ops[o].pc)
    ensures Matched(StartLocal(s, o, ok), x)
  {
    assert Matched(s, x);
    Carried(s, StartLocal(s, o, ok), o, x);
  }

  lemma StartKeepsMatched(s: Host, o: OpId, ok: bool, x: InstanceId)
    requires Inv(s) && EndpointsInv(s) && o in s.ops && s.ops[o].Start? && !HoldsLock(s, o)
    ensures Matched(StartLocal(s, o, ok), x)
  {
    var pc := s.ops[o].pc;
    if pc.SpawnInserting? || pc.EndpointRegistering? {
      SpawnKeepsMatched(s, o, ok, x);
    } else if pc.AbortStopping? || pc.EndpointDropping? {
      UndoKeepsMatched(s, o, ok, x);
    } else if Retires(pc) {
      RetireKeepsMatched(s, o, ok, x);
    } else if pc.CuttingOver? {
      assert StartLocal(s, o, ok) == s && Matched(s, x);
    } else {
      OtherKeepsMatched(s, StartLocal(s, o, ok), o, x);
    }
  }

  /** A step that moves only operation `o`, which had and has nothing to do with any endpoint. */
  lemma OtherKeepsMatched(s: Host, t: Host, o: OpId, x: InstanceId)
    requires EndpointsInv(s) && OthersSame(s, t, o) && t.endpoints == s.endpoints && t.pool == s.pool
    requires o in s.ops ==> !DropsEndpoint(s.ops[o], x) && !AddsEndpoint(s.ops[o], x) && !Kills(s.ops[o], x)
    requires o in t.ops ==> !Kills(t.ops[o], x)
    ensures Matched(t, x)
  {
    assert Matched(s, x);
    Carried(s, t, o, x);
  }

  lemma LocalKeepsMatched(s: Host, o: OpId, ok: bool, x: InstanceId)
    requires Inv(s) && EndpointsInv(s)
    ensures Matched(LocalStep(s, o, ok), x)
  {
    assert Matched(s, x);
    if o in s.ops && !HoldsLock(s, o) {
      if !s.ops[o].Start? {
        var moved := if s.ops[o].StopKilling? && s.ops[o].ids != {} then s.nextOp else o;
        OtherKeepsMatched(s, LocalStep(s, o, ok), moved, x);
      } else {
        StartKeepsMatched(s, o, ok, x);
      }
    }
  }

  lemma KillKeepsMatched(s: Host, o: OpId, victim: InstanceId, x: InstanceId)
    requires Inv(s) && EndpointsInv(s)
    ensures Matched(KillStep(s, o, victim), x)
  {
    assert Matched(s, x);
    Carried(s, KillStep(s, o, victim), o, x);
    if o in s.ops && Kills(s.ops[o], x) { assert Dying(s, x); }
  }

  lemma CutoverKeepsMatched(s: Host, o: OpId, x: InstanceId)
    requires Inv(s) && EndpointsInv(s) && s.lock.Written? && s.lock.holder == o
    requires s.ops[o].Start? && s.ops[o].pc.CuttingOver?
    ensures Matched(InstallStep(s, o), x)
  {
    assert Matched(s, x);
    CutoverFindsCandidate(s, o);
    forall p | p in s.ops && s.ops[p].StopKilling? ensures !Kills(s.ops[p], s.ops[o].id) { assert OpOk(s, s.ops[p]); }
    Carried(s, InstallStep(s, o), o, x);
  }

  lemma InstallKeepsMatched(s: Host, o: OpId, x: InstanceId)
    requires Inv(s) && EndpointsInv(s) && s.lock.Written? && s.lock.holder == o
    ensures Matched(InstallStep(s, o), x)
  {
    assert Matched(s, x);
    if s.ops[o].StopCommitting? {
      Carried(s, InstallStep(s, o), o, x);
    } else if s.ops[o].pc.CuttingOver? {
      CutoverKeepsMatched(s, o, x);
    } else {
      OtherKeepsMatched(s, InstallStep(s, o), o, x);
    }
  }

  lemma FailedKeepsMatched(s: Host, o: OpId, x: InstanceId)
    requires EndpointsInv(s) && o in s.ops && Mutates(s.ops[o])
    ensures Matched(Failed(s, o), x)
  {
    assert Matched(s, x);
    Carried(s, Failed(s, o), o, x);
  }

  lemma MutationKeepsMatched(s: Host, step: Step, x: InstanceId)
    requires Inv(s) && EndpointsInv(s) && (step.Acquire? || step.Write? || step.Install?)
    ensures Matched(Apply(s, step), x)
  {
    var o, t := step.op, Apply(s, step);
    assert Matched(s, x);
    if t != s {
      if step.Install? {
        InstallKeepsMatched(s, o, x);
      } else if t.lock.Free? {
        FailedKeepsMatched(s, o, x);
      } else {
        Carried(s, t, s.nextOp, x);
      }
    }
  }

  lemma BeginningKeepsMatched(s: Host, step: Step, x: InstanceId)
    requires Inv(s) && EndpointsInv(s) && (step.StartBegin? || step.StopBegin? || step.Mint?)
    ensures Matched(Apply(s, step), x)
  {
    assert Matched(s, x);
    Carried(s, Apply(s, step), if step.Mint? then step.op else s.nextOp, x);
  }

  // ---- Retired processes ----

  /** Any other step changes neither the pool nor a start, except that it may end one. */
  lemma RestKeepsRetired(s: Host, t: Host)
    requires RetiredIsDone(s) && t.pool <= s.pool
    requires forall o :: o in t.ops && t.ops[o].Start? ==> o in s.ops && t.ops[o] == s.ops[o]
    ensures RetiredIsDone(t)
  {
  }

  lemma OwnKeepsRetired(s: Host, o: OpId, ok: bool)
    requires Inv(s) && RetiredIsDone(s) && o in s.ops && s.ops[o].Start? && Retires(s.ops[o].pc)
    ensures RetiredIsDone(StartLocal(s, o, ok))
  {
  }

  lemma GotoKeepsRetired(s: Host, o: OpId, pc: StartPc, pool: set<InstanceId>, endpoints: set<InstanceId>)
    requires RetiredIsDone(s) && o in s.ops && s.ops[o].Start? && !Retires(s.ops[o].pc) && !Retires(pc)
    requires forall x :: x in pool ==> x in s.pool || x == s.ops[o].id
    ensures RetiredIsDone(Goto(s, o, pc).(pool := pool, endpoints := endpoints))
  {
    forall p | p in s.ops && s.ops[p].Start? && Retires(s.ops[p].pc) ensures s.ops[p].pc.previous != s.ops[o].id {}
  }

  lemma OtherKeepsRetired(s: Host, o: OpId, ok: bool)
    requires RetiredIsDone(s) && o in s.ops && s.ops[o].Start? && !Retires(s.ops[o].pc)
    ensures RetiredIsDone(StartLocal(s, o, ok))
  {
    var t := StartLocal(s, o, ok);
    if o in t.ops && t != s {
      GotoKeepsRetired(s, o, t.ops[o].pc, t.pool, t.endpoints);
      assert t == Goto(s, o, t.ops[o].pc).(pool := t.pool, endpoints := t.endpoints);
    } else {
      RestKeepsRetired(s, t);
    }
  }

  lemma StartKeepsRetired(s: Host, o: OpId, ok: bool)
    requires Inv(s) && RetiredIsDone(s) && o in s.ops && s.ops[o].Start?
    ensures RetiredIsDone(StartLocal(s, o, ok))
  {
    if Retires(s.ops[o].pc) { OwnKeepsRetired(s, o, ok); } else { OtherKeepsRetired(s, o, ok); }
  }

  lemma MintKeepsRetired(s: Host, o: OpId, base: string, stampMs: nat, specRef: string)
    requires Inv(s) && RetiredIsDone(s)
    ensures RetiredIsDone(MintId(s, o, base, stampMs, specRef))
  {
    forall p | p in s.ops && s.ops[p].Start? && Retires(s.ops[p].pc) ensures Known(s, s.ops[p].pc.previous) {
      assert OpOk(s, s.ops[p]);
    }
  }

  lemma InstallKeepsRetired(s: Host, o: OpId)
    requires Inv(s) && RetiredIsDone(s) && s.lock.Written? && s.lock.holder == o
    ensures RetiredIsDone(InstallStep(s, o))
  {
    forall p | p in s.ops && s.ops[p].Start? && !Retires(s.ops[p].pc) ensures NotActive(s.mem.contents, s.ops[p].id) {
      assert OpOk(s, s.ops[p]);
    }
  }

  lemma FailedKeepsRetired(s: Host, o: OpId)
    requires RetiredIsDone(s) && o in s.ops && Mutates(s.ops[o])
    ensures RetiredIsDone(Failed(s, o))
  {
  }

  lemma LocalKeepsRetired(s: Host, o: OpId, ok: bool)
    requires Inv(s) && RetiredIsDone(s)
    ensures RetiredIsDone(LocalStep(s, o, ok))
  {
    if o in s.ops && !HoldsLock(s, o) {
      if s.ops[o].Start? { StartKeepsRetired(s, o, ok); } else { RestKeepsRetired(s, LocalStep(s, o, ok)); }
    }
  }

  lemma MutationKeepsRetired(s: Host, step: Step)
    requires Inv(s) && RetiredIsDone(s) && (step.Acquire? || step.Write? || step.Install?)
    ensures RetiredIsDone(Apply(s, step))
  {
    var o, t := step.op, Apply(s, step);
    if t != s {
      if step.Install? {
        InstallKeepsRetired(s, o);
      } else if t.lock.Free? {
        FailedKeepsRetired(s, o);
      } else {
        RestKeepsRetired(s, t);
      }
    }
  }

  lemma StepKeepsRetired(s: Host, step: Step)
    requires Inv(s) && RetiredIsDone(s)
    ensures RetiredIsDone(Apply(s, step))
  {
    if step.Local? {
      LocalKeepsRetired(s, step.op, step.ok);
    } else if step.Mint? {
      MintKeepsRetired(s, step.op, step.base, step.stampMs, step.specRef);
    } else if step.Acquire? || step.Write? || step.Install? {
      MutationKeepsRetired(s, step);
    } else {
      RestKeepsRetired(s, Apply(s, step));
    }
  }

  // ---- Runs without drops ----

  lemma StepKeepsEndpoints(s: Host, step: Step)
    requires Inv(s) && EndpointsInv(s) && !step.Cancel?
    ensures EndpointsInv(Apply(s, step))
  {
    StepKeepsRetired(s, step);
    forall x ensures Matched(Apply(s, step), x) {
      match step
      case Local(o, ok) => LocalKeepsMatched(s, o, ok, x);
      case Kill(o, victim) => KillKeepsMatched(s, o, victim, x);
      case StartBegin(_) => BeginningKeepsMatched(s, step, x);
      case StopBegin(_) => BeginningKeepsMatched(s, step, x);
      case Mint(_, _, _, _) => BeginningKeepsMatched(s, step, x);
      case _ => MutationKeepsMatched(s, step, x);
    }
  }

  lemma {:induction false} RunKeepsEndpoints(s: Host, steps: seq<Step>)
    requires Init(s) && forall step :: step in steps ==> !step.Cancel?
    ensures Inv(Exec(s, steps)) && EndpointsInv(Exec(s, steps))
    decreases |steps|
  {
    if steps == [] {
      InitInv(s);
    } else {
      var init, last := steps[..|steps| - 1], steps[|steps| - 1];
      RunKeepsEndpoints(s, init);
      assert last in steps;
      StepKeepsInv(Exec(s, init), last);
      StepKeepsEndpoints(Exec(s, init), last);
    }
  }

  /** In any run in which no operation is dropped: once all have returned, the endpoints are exactly
      those of the processes in the pool. */
  lemma QuiescentEndpointsArePooled(s: Host, steps: seq<Step>)
    requires Init(s) && forall step :: step in steps ==> !step.Cancel?
    requires Exec(s, steps).ops == map[]
    ensures Exec(s, steps).endpoints == Exec(s, steps).pool
  {
    RunKeepsEndpoints(s, steps);
    var t := Exec(s, steps);
    forall x ensures x in t.endpoints <==> x in t.pool { assert Matched(t, x); }
  }

  /** A drop breaks this: a stop dropped before its kills leaves processes without endpoints. */
  lemma DroppedStopLosesEndpoints(s: Host, app: AppId)
    requires Inv(s) && s.lock.Free?
    requires StopTargets(s, app, Route(s.mem.contents, app).active) * s.pool != {}
    ensures
      var o := s.nextOp;
      var t := CancelStep(Mutated(LocalStep(BeginStop(s, app), o, true), o, true), o);
      && t.ops == s.ops
      && exists x :: x in t.pool && x !in t.endpoints
  {
  }
}
