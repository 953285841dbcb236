/** Whether a run of starts and stops can leave a process running with no route and nobody to stop
    it: a stop that commits over an instance it did not collect does that, and so does dropping the
    operation that was to deal with it. */
module LaunchStranding {
  import opened Wrappers
  import opened LaunchManifests
  import opened LaunchProtocol
  import opened LaunchSafety
  import opened LaunchResults
  import opened LaunchScenarios

  /** The operation will take instance `x` out of the pool, or route to it. */
  predicate Minds(op: Op, x: InstanceId) {
    match op
    case Start(_, id, _, pc) =>
      || (id == x && (pc.EndpointRegistering? || pc.CuttingOver? || pc.AbortStopping?))
      || (pc.Draining? && pc.previous == x)
    case StopKilling(_, ids) => x in ids
    case _ => false
  }

  ghost predicate Minded(s: Host, x: InstanceId) {
    exists o :: o in s.ops && Minds(s.ops[o], x)
  }

  /** Running, not routed to, and no operation minds it. */
  ghost predicate Stranded(s: Host, x: InstanceId) {
    x in s.pool && NotActive(s.mem.contents, x) && !Minded(s, x)
  }

  /** The step commits a stop of the app whose active instance is `x`, which the stop did not
      collect. */
  predicate Misses(s: Host, step: Step, x: InstanceId) {
    x.Minted? && StopCommits(s, step, x.app)
    && Route(s.mem.contents, x.app).active == Some(x) && x !in s.ops[step.op].ids
  }

  /** The step drops the only operation that minds the unrouted process `x`. */
  ghost predicate Abandons(s: Host, step: Step, x: InstanceId) {
    && step.Cancel? && CancelStep(s, step.op) != s && Minds(s.ops[step.op], x)
    && x in s.pool && NotActive(s.mem.contents, x)
    && forall p :: p in s.ops && p != step.op ==> !Minds(s.ops[p], x)
  }

  // ---- What a step does to a process that is routed or minded ----

  lemma OwnLocalMinds(s: Host, o: OpId, ok: bool, x: InstanceId)
    requires o in s.ops && Minds(s.ops[o], x)
    ensures var t := LocalStep(s, o, ok); x in t.pool ==> o in t.ops && Minds(t.ops[o], x)
  {
  }

  lemma OwnKillMinds(s: Host, o: OpId, victim: InstanceId, x: InstanceId)
    requires o in s.ops && Minds(s.ops[o], x)
    ensures var t := KillStep(s, o, victim); x in t.pool ==> o in t.ops && Minds(t.ops[o], x)
  {
  }

  lemma OwnMutationMinds(s: Host, o: OpId, diskOk: bool, x: InstanceId)
    requires LockInv(s) && o in s.ops && Minds(s.ops[o], x)
    ensures o in AcquireStep(s, o).ops && Minds(AcquireStep(s, o).ops[o], x)
    ensures o in WriteStep(s, o, diskOk).ops && Minds(WriteStep(s, o, diskOk).ops[o], x)
  {
  }

  lemma OwnInstallMinds(s: Host, o: OpId, x: InstanceId)
    requires Inv(s) && o in s.ops && Minds(s.ops[o], x)
    ensures var t := InstallStep(s, o); !NotActive(t.mem.contents, x) || (o in t.ops && Minds(t.ops[o], x))
  {
    var t := InstallStep(s, o);
    if s.lock.Written? && s.lock.holder == o && Mutates(s.ops[o]) {
      CutoverFindsCandidate(s, o);
      assert Route(t.mem.contents, s.ops[o].app).active == Some(x);
    }
  }

  lemma MindedStays(s: Host, step: Step, x: InstanceId)
    requires Inv(s) && Minded(s, x) && !step.Cancel?
    ensures !Stranded(Apply(s, step), x)
  {
    var o :| o in s.ops && Minds(s.ops[o], x);
    if step.StartBegin? || step.StopBegin? || step.op != o {
      OthersLeaveOpAlone(s, step, o);
    } else {
      match step
      case Local(_, ok) => OwnLocalMinds(s, o, ok, x);
      case Kill(_, victim) => OwnKillMinds(s, o, victim, x);
      case Acquire(_) => OwnMutationMinds(s, o, true, x);
      case Write(_, diskOk) => OwnMutationMinds(s, o, diskOk, x);
      case Install(_) => OwnInstallMinds(s, o, x);
      case Mint(_, _, _, _) =>
    }
  }

  lemma CancelAbandons(s: Host, o: OpId, x: InstanceId)
    requires Inv(s) && !Stranded(s, x)
    ensures Stranded(CancelStep(s, o), x) <==> Abandons(s, Cancel(o), x)
  {
    var t := CancelStep(s, o);
    if t != s {
      assert forall p :: p in t.ops <==> p in s.ops && p != o;
      assert forall p :: p in t.ops ==> t.ops[p] == s.ops[p];
    }
  }

  /** A routed process that an install takes off its route is minded afterwards, or missed. */
  lemma RoutedStays(s: Host, step: Step, app: AppId, x: InstanceId)
    requires Inv(s) && Route(s.mem.contents, app).active == Some(x)
    ensures Stranded(Apply(s, step), x) <==> Misses(s, step, x)
  {
    var t := Apply(s, step);
    assert RouteOk(s, app, Route(s.mem.contents, app));
    assert x in s.pool;
    if Route(t.mem.contents, app).active != Some(x) {
      UnroutedByInstall(s, step, app, x);
    }
  }

  lemma UnroutedByInstall(s: Host, step: Step, app: AppId, x: InstanceId)
    requires Inv(s) && Route(s.mem.contents, app).active == Some(x)
    requires Route(Apply(s, step).mem.contents, app).active != Some(x)
    ensures Stranded(Apply(s, step), x) <==> Misses(s, step, x)
  {
    var t := Apply(s, step);
    StepTouchesOwnAppOnly(s, step);
    var o := step.op;
    var op := s.ops[o];
    assert RouteOk(s, app, Route(s.mem.contents, app));
    EditShape(op, s.mem.contents);
    if op.Start? {
      CutoverFindsCandidate(s, o);
      assert Minds(t.ops[o], x);
    } else if x in op.ids {
      assert Minds(t.ops[o], x);
    } else {
      NobodyElseMinds(s, app, x);
      forall b ensures Route(t.mem.contents, b).active != Some(x) {
        assert RouteOk(s, b, Route(s.mem.contents, b));
      }
    }
  }

  lemma NobodyElseMinds(s: Host, app: AppId, x: InstanceId)
    requires Inv(s) && Route(s.mem.contents, app).active == Some(x)
    ensures !Minded(s, x)
  {
    forall o | o in s.ops ensures !Minds(s.ops[o], x) { assert OpOk(s, s.ops[o]); }
  }

  lemma NewcomerIsMinded(s: Host, step: Step, x: InstanceId)
    requires x !in s.pool && x in Apply(s, step).pool
    ensures Minded(Apply(s, step), x)
  {
    assert Minds(Apply(s, step).ops[step.op], x);
  }

  // ---- Results ----

  /** A step strands a process exactly when it is the commit of a stop that missed it, so that the
      process went live after the stop listed the instances to take down, or when it drops the
      operation that minded it. */
  lemma StrandsExactly(s: Host, step: Step, x: InstanceId)
    requires Inv(s) && !Stranded(s, x)
    ensures Stranded(Apply(s, step), x) <==> Misses(s, step, x) || Abandons(s, step, x)
  {
    if step.Cancel? {
      CancelAbandons(s, step.op, x);
    } else if x !in s.pool {
      if x in Apply(s, step).pool { NewcomerIsMinded(s, step, x); }
      assert Misses(s, step, x) ==> x in s.pool;
    } else if app :| Route(s.mem.contents, app).active == Some(x) {
      RoutedStays(s, step, app, x);
    } else {
      MindedStays(s, step, x);
    }
  }

  ghost predicate Harmless(s: Host, step: Step) {
    forall x :: !Misses(s, step, x) && !Abandons(s, step, x)
  }

  /** No stop of the run misses a process and none is abandoned. */
  ghost predicate NeverStrands(s: Host, steps: seq<Step>)
    decreases |steps|
  {
    steps == []
    || (var init := steps[..|steps| - 1];
        NeverStrands(s, init) && Harmless(Exec(s, init), steps[|steps| - 1]))
  }

  lemma {:induction false} NothingIsStranded(s: Host, steps: seq<Step>, x: InstanceId)
    requires Init(s) && NeverStrands(s, steps)
    ensures !Stranded(Exec(s, steps), x)
    decreases |steps|
  {
    InitInv(s);
    if steps != [] {
      var init := steps[..|steps| - 1];
      NothingIsStranded(s, init, x);
      RunKeepsInv(s, init);
      StrandsExactly(Exec(s, init), steps[|steps| - 1], x);
    }
  }

  /** If no process was missed or abandoned and all operations have ended, the pool holds exactly
      the active instances of the routes. */
  lemma QuiescentPoolIsRouted(s: Host, steps: seq<Step>, x: InstanceId)
    requires Init(s) && NeverStrands(s, steps) && Exec(s, steps).ops == map[]
    ensures x in Exec(s, steps).pool <==> exists app :: Route(Exec(s, steps).mem.contents, app).active == Some(x)
  {
    NothingIsStranded(s, steps, x);
    InitInv(s);
    RunKeepsInv(s, steps);
  }

  /** A stop does miss a start that goes live between its listing and its commit: from any state in
      which a stop of the app is about to commit, an undisturbed start followed by that commit
      leaves the new process stranded and desired Running. */
  lemma StopMissesAStart(s: Host, q: OpId, base: string, stampMs: nat, specRef: string)
    requires Inv(s) && s.lock.Free? && q in s.ops && s.ops[q].StopCommitting? && s.ops[q].app !in s.inflight
    ensures
      var app := s.ops[q].app;
      var x := Minted(app, base, stampMs, s.nextCounter);
      var t := Mutation(StartAlone(s, app, base, stampMs, specRef), q);
      && x in t.pool && NotActive(t.mem.contents, x) && Route(t.mem.contents, app).active == None
      && x in t.mem.contents.instances && t.mem.contents.instances[x].state == Running
      && q in t.ops && t.ops[q] == StopKilling(app, s.ops[q].ids) && x !in s.ops[q].ids
  {
    var app := s.ops[q].app;
    var x := Minted(app, base, stampMs, s.nextCounter);
    var live := StartAlone(s, app, base, stampMs, specRef);
    assert OpOk(s, s.ops[q]);
    assert !Known(s, x);
    UndisturbedStartGoesLive(s, app, base, stampMs, specRef);
    StopMutation(live, q);
    var d := StopEdit(live.mem.contents, app, s.ops[q].ids);
    forall b ensures Route(d, b).active != Some(x) {
      assert RouteOk(s, b, Route(s.mem.contents, b));
      assert b != app ==> Route(d, b) == Route(live.mem.contents, b) == Route(s.mem.contents, b);
    }
  }

  lemma StopMutation(s: Host, q: OpId)
    requires s.lock.Free? && s.disk == Some(s.mem) && q in s.ops && s.ops[q].StopCommitting?
    ensures
      var t := Mutation(s, q);
      && t.mem.contents == StopEdit(s.mem.contents, s.ops[q].app, s.ops[q].ids) && t.pool == s.pool
      && q in t.ops && t.ops[q] == StopKilling(s.ops[q].app, s.ops[q].ids)
  {
    var a := AcquireStep(s, q);
    assert a.lock.Computed?;
    assert WriteStep(a, q, true).lock.Written?;
  }

  // ---- Serial lanes ----

  /** What the runtime actor's lanes give to the commands that go through it: at most one
      operation per app at a time, in a task of its own that no client can drop. */
  predicate Lanes(s: Host) {
    forall o, p | o in s.ops && p in s.ops && o != p :: s.ops[o].app != s.ops[p].app
  }

  ghost predicate SerialRun(s: Host, steps: seq<Step>)
    decreases |steps|
  {
    steps == []
    || (SerialRun(s, steps[..|steps| - 1]) && Lanes(Exec(s, steps)) && !steps[|steps| - 1].Cancel?)
  }

  predicate KnowsActive(c: Contents, op: Op) {
    match op
    case StopCollecting(app, active) => Route(c, app).active == active
    case StopCommitting(app, ids) => Route(c, app).active.Some? ==> Route(c, app).active.value in ids
    case _ => true
  }

  /** Every stop under way knows the active instance of its app. */
  predicate Collected(s: Host) {
    forall o | o in s.ops :: KnowsActive(s.mem.contents, s.ops[o])
  }

  lemma OwnStepCollects(s: Host, step: Step)
    requires Collected(s) && !step.StartBegin? && !step.StopBegin? && step.op in Apply(s, step).ops && step.op in s.ops
    ensures KnowsActive(Apply(s, step).mem.contents, Apply(s, step).ops[step.op])
  {
    assert KnowsActive(s.mem.contents, s.ops[step.op]);
  }

  lemma OthersStayCollected(s: Host, step: Step, o: OpId)
    requires Inv(s) && Lanes(s) && Collected(s) && o in s.ops
    requires !step.StartBegin? && !step.StopBegin? ==> step.op != o
    ensures o in Apply(s, step).ops && KnowsActive(Apply(s, step).mem.contents, Apply(s, step).ops[o])
  {
    OthersLeaveOpAlone(s, step, o);
    if Apply(s, step).mem != s.mem { StepTouchesOwnAppOnly(s, step); }
  }

  lemma NewOpsAreNew(s: Host, step: Step, o: OpId)
    requires o !in s.ops && o in Apply(s, step).ops
    ensures (step.StartBegin? || step.StopBegin?) && KnowsActive(Apply(s, step).mem.contents, Apply(s, step).ops[o])
  {
  }

  lemma StepKeepsCollected(s: Host, step: Step)
    requires Inv(s) && Lanes(s) && Collected(s)
    ensures Collected(Apply(s, step))
  {
    var t := Apply(s, step);
    forall o | o in t.ops ensures KnowsActive(t.mem.contents, t.ops[o]) {
      if o !in s.ops {
        NewOpsAreNew(s, step, o);
      } else if !step.StartBegin? && !step.StopBegin? && step.op == o {
        OwnStepCollects(s, step);
      } else {
        OthersStayCollected(s, step, o);
      }
    }
  }

  lemma {:induction false} SerialRunCollects(s: Host, steps: seq<Step>)
    requires Init(s) && SerialRun(s, steps)
    ensures Collected(Exec(s, steps)) && NeverStrands(s, steps)
    decreases |steps|
  {
    if steps != [] {
      var init := steps[..|steps| - 1];
      SerialRunCollects(s, init);
      InitInv(s);
      RunKeepsInv(s, init);
      assert Lanes(Exec(s, init));
      StepKeepsCollected(Exec(s, init), steps[|steps| - 1]);
    }
  }

  /** With one operation per app at a time, none of them dropped, nothing is ever stranded, and
      whenever no operation is running the pool holds exactly the active instances. */
  lemma SerialLanesStrandNothing(s: Host, steps: seq<Step>, x: InstanceId)
    requires Init(s) && SerialRun(s, steps)
    ensures !Stranded(Exec(s, steps), x)
    ensures Exec(s, steps).ops == map[] ==>
              (x in Exec(s, steps).pool <==> exists app :: Route(Exec(s, steps).mem.contents, app).active == Some(x))
  {
    SerialRunCollects(s, steps);
    NothingIsStranded(s, steps, x);
    if Exec(s, steps).ops == map[] { QuiescentPoolIsRouted(s, steps, x); }
  }

  // ---- After the fact ----

  /** No start that could still route to `x` is left. */
  ghost predicate Spent(s: Host, x: InstanceId) {
    && Known(s, x) && NotActive(s.mem.contents, x)
    && forall o :: o in s.ops && s.ops[o].Start? && s.ops[o].id == x ==>
         var pc := s.ops[o].pc; Retires(pc) || pc.AbortStopping? || pc.EndpointDropping? || pc.Discarding?
  }

  lemma SpentOpsStay(s: Host, step: Step, x: InstanceId, o: OpId)
    requires Spent(s, x) && o in Apply(s, step).ops
    requires Apply(s, step).ops[o].Start? && Apply(s, step).ops[o].id == x
    ensures var pc := Apply(s, step).ops[o].pc;
            Retires(pc) || pc.AbortStopping? || pc.EndpointDropping? || pc.Discarding?
  {
  }

  lemma SpentIsNotRouted(s: Host, step: Step, x: InstanceId)
    requires Inv(s) && Spent(s, x) && Apply(s, step).mem != s.mem
    ensures NotActive(Apply(s, step).mem.contents, x)
  {
    StepTouchesOwnAppOnly(s, step);
    EditShape(s.ops[step.op], s.mem.contents);
    forall b ensures Route(Apply(s, step).mem.contents, b).active != Some(x) {
      assert Route(s.mem.contents, b).active != Some(x);
    }
  }

  lemma SpentStays(s: Host, step: Step, x: InstanceId)
    requires Inv(s) && Spent(s, x)
    ensures Spent(Apply(s, step), x)
  {
    var t := Apply(s, step);
    forall o | o in t.ops && t.ops[o].Start? && t.ops[o].id == x
      ensures var pc := t.ops[o].pc; Retires(pc) || pc.AbortStopping? || pc.EndpointDropping? || pc.Discarding?
    {
      SpentOpsStay(s, step, x, o);
    }
    if t.mem != s.mem { SpentIsNotRouted(s, step, x); }
  }

  lemma StrandedIsSpent(s: Host, x: InstanceId)
    requires Inv(s) && Stranded(s, x)
    ensures Spent(s, x)
  {
    forall o | o in s.ops && s.ops[o].Start? && s.ops[o].id == x ensures Retires(s.ops[o].pc) {
      assert OpOk(s, s.ops[o]) && !Minds(s.ops[o], x);
    }
  }

  /** No run of starts and stops routes to a stranded process again. */
  lemma {:induction false} StrandedIsNeverRoutedAgain(s: Host, steps: seq<Step>, x: InstanceId)
    requires Inv(s) && Stranded(s, x)
    ensures Spent(Exec(s, steps), x) && NotActive(Exec(s, steps).mem.contents, x)
    decreases |steps|
  {
    if steps == [] {
      StrandedIsSpent(s, x);
    } else {
      var init := steps[..|steps| - 1];
      StrandedIsNeverRoutedAgain(s, init, x);
      RunKeepsInv(s, init);
      SpentStays(Exec(s, init), steps[|steps| - 1], x);
    }
  }

  /** The step commits a stop that listed `x`. */
  predicate TakesUp(s: Host, step: Step, x: InstanceId) {
    && step.Install? && step.op in s.ops && s.ops[step.op].StopCommitting? && x in s.ops[step.op].ids
    && s.lock.Written? && s.lock.holder == step.op
  }

  lemma NobodyTakesStranded(s: Host, step: Step, x: InstanceId)
    requires x in s.pool && !Minded(s, x)
    ensures x in Apply(s, step).pool
  {
    if x !in Apply(s, step).pool { assert Minds(s.ops[step.op], x); }
  }

  lemma StepMindsNothingNew(s: Host, step: Step, x: InstanceId)
    requires x in s.pool && !step.StartBegin? && !step.StopBegin? && !step.Install?
    requires step.op in s.ops && !Minds(s.ops[step.op], x) && step.op in Apply(s, step).ops
    ensures !Minds(Apply(s, step).ops[step.op], x)
  {
  }

  lemma InstallMindsListed(s: Host, o: OpId, x: InstanceId)
    requires Inv(s) && Stranded(s, x) && o in s.ops && o in InstallStep(s, o).ops
    ensures Minds(InstallStep(s, o).ops[o], x) ==> TakesUp(s, Install(o), x)
  {
    assert !Minds(s.ops[o], x);
    if HoldsLock(s, o) && s.lock.Written? && s.ops[o].Start? {
      if s.ops[o].pc.CuttingOver? { CutoverFindsCandidate(s, o); }
    }
  }

  lemma NewOpMindsNothing(s: Host, step: Step, x: InstanceId, o: OpId)
    requires o !in s.ops && o in Apply(s, step).ops
    ensures !Minds(Apply(s, step).ops[o], x)
  {
  }

  lemma OnlyStopsMindStranded(s: Host, step: Step, x: InstanceId, o: OpId)
    requires Inv(s) && Stranded(s, x) && o in Apply(s, step).ops && Minds(Apply(s, step).ops[o], x)
    ensures TakesUp(s, step, x) && o == step.op
  {
    if o !in s.ops {
      NewOpMindsNothing(s, step, x, o);
    } else {
      assert !Minds(s.ops[o], x);
      if step.StartBegin? || step.StopBegin? || step.op != o {
        OthersLeaveOpAlone(s, step, o);
      } else if step.Install? {
        InstallMindsListed(s, o, x);
      } else {
        StepMindsNothingNew(s, step, x);
      }
    }
  }

  /** Among starts and stops, only the commit of a stop that listed it ends the stranding of a
      process: until then it stays in the pool, unrouted and unminded, over every step. */
  lemma StrandedUntilStopListsIt(s: Host, step: Step, x: InstanceId)
    requires Inv(s) && Stranded(s, x)
    ensures x in Apply(s, step).pool && NotActive(Apply(s, step).mem.contents, x)
    ensures Stranded(Apply(s, step), x) <==> !TakesUp(s, step, x)
  {
    StrandedIsSpent(s, x);
    SpentStays(s, step, x);
    NobodyTakesStranded(s, step, x);
    if o :| o in Apply(s, step).ops && Minds(Apply(s, step).ops[o], x) { OnlyStopsMindStranded(s, step, x, o); }
    if TakesUp(s, step, x) { assert Minds(Apply(s, step).ops[step.op], x); }
  }

  /** What is not a start or a stop can: right after a stop has missed a process, that process is
      the app's `previous` and pooled, so a rollback of the route goes back to it. */
  lemma RollbackReachesMissed(s: Host, step: Step, x: InstanceId)
    requires Inv(s) && Misses(s, step, x)
    ensures
      var t := Apply(s, step);
      var back := RollbackEdit(t.mem.contents, x.app);
      && Stranded(t, x) && Route(t.mem.contents, x.app).previous == Some(x)
      && back.Some? && Route(back.value, x.app).active == Some(x)
  {
    assert RouteOk(s, x.app, Route(s.mem.contents, x.app));
    NobodyElseMinds(s, x.app, x);
    StrandsExactly(s, step, x);
  }
}
