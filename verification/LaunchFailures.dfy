/** Starts that fail without interference, point by point, and what a process in the pool proves. */
module LaunchFailures {
  import opened Wrappers
  import opened LaunchManifests
  import opened LaunchProtocol
  import opened LaunchSafety
  import opened LaunchScenarios
  import opened LaunchStranding

  // ---- A start that fails before its registration ----

  /** A preparation that fails ends the start: only a number has been used up. */
  lemma FailedPreparationEnds(s: Host, app: AppId)
    requires app !in s.inflight && s.nextOp !in s.ops && !HoldsLock(s, s.nextOp)
    ensures LocalStep(BeginStart(s, app), s.nextOp, false) == s.(nextOp := s.nextOp + 1)
  {
    var b := BeginStart(s, app);
    assert b.ops - {s.nextOp} == s.ops && b.inflight - {app} == s.inflight;
  }

  /** So does one whose spec cannot be written, after its id was minted. */
  lemma UnwrittenSpecEnds(s: Host, app: AppId, base: string, stampMs: nat, specRef: string)
    requires app !in s.inflight && s.nextOp !in s.ops && !HoldsLock(s, s.nextOp)
    ensures LocalStep(MintId(BeginStart(s, app), s.nextOp, base, stampMs, specRef), s.nextOp, false)
            == s.(nextOp := s.nextOp + 1, nextCounter := s.nextCounter + 1)
  {
    var m := MintId(BeginStart(s, app), s.nextOp, base, stampMs, specRef);
    assert m.ops - {s.nextOp} == s.ops && m.inflight - {app} == s.inflight;
  }

  /** The id that a start of `app` would mint has not been met. */
  predicate Unmet(s: Host, app: AppId, id: InstanceId) {
    && s.disk == Some(s.mem) && s.lock.Free? && s.nextOp !in s.ops && app !in s.inflight
    && id !in s.pool && id !in s.mem.contents.instances && Route(s.mem.contents, app).active != Some(id)
  }

  lemma MintedIsUnmet(s: Host, app: AppId, base: string, stampMs: nat)
    requires Inv(s) && s.lock.Free? && app !in s.inflight
    ensures Unmet(s, app, Minted(app, base, stampMs, s.nextCounter))
  {
    var id := Minted(app, base, stampMs, s.nextCounter);
    assert !Known(s, id);
    assert RouteOk(s, app, Route(s.mem.contents, app));
  }

  // ---- A start that fails after its registration ----

  /** Undoing, from the endpoint drop to the discard. */
  function UndoAlone(s: Host, o: OpId): Host { Mutation(LocalStep(s, o, true), o) }

  /** A start whose child never becomes healthy. */
  function UnhealthyAlone(s: Host, app: AppId, base: string, stampMs: nat, specRef: string): Host {
    var o := s.nextOp;
    UndoAlone(LocalStep(LocalStep(RegisterAlone(s, app, base, stampMs, specRef), o, true), o, false), o)
  }

  /** The state after a start of `app` has registered `id` and been undone. */
  function Undone(s: Host, app: AppId, id: InstanceId, specRef: string): Host {
    var m := WithRecomputedRevision(DiscardEdit(RegisterEdit(s.mem.contents, app, id, specRef), app, id));
    s.(mem := m, disk := Some(m), endpoints := s.endpoints - {id},
       nextOp := s.nextOp + 1, nextCounter := s.nextCounter + 1)
  }

  /** The app as before, but for a candidate left by an earlier process. */
  predicate AsBefore(s: Host, t: Host, app: AppId, id: InstanceId) {
    && Route(t.mem.contents, app) == Route(s.mem.contents, app).(candidate := None)
    && t.mem.contents.instances == s.mem.contents.instances
    && t.pool == s.pool && t.endpoints == s.endpoints - {id} && t.ops == s.ops && t.inflight == s.inflight
    && t.disk == Some(t.mem) && t.lock.Free?
  }

  lemma UndoPhase(s: Host, o: OpId)
    requires s.lock.Free? && s.disk == Some(s.mem) && o in s.ops && s.ops[o].Start? && s.ops[o].pc.EndpointDropping?
    ensures
      var id := s.ops[o].id;
      var m := WithRecomputedRevision(DiscardEdit(s.mem.contents, s.ops[o].app, id));
      UndoAlone(s, o) == End(s, o).(mem := m, disk := Some(m), endpoints := s.endpoints - {id})
  {
    var d := LocalStep(s, o, true);
    assert d.ops == s.ops[o := s.ops[o].(pc := Discarding)];
    var a := AcquireStep(d, o);
    assert a.lock.Computed?;
    assert WriteStep(a, o, true).lock.Written?;
    assert d.ops - {o} == s.ops - {o};
  }

  lemma UndoReached(s: Host, app: AppId, id: InstanceId, specRef: string, k: Host)
    requires s.nextOp !in s.ops && s.lock.Free? && app !in s.inflight
    requires
      var m := WithRecomputedRevision(RegisterEdit(s.mem.contents, app, id, specRef));
      k == Host(m, Some(m), Free, s.pool, k.endpoints, s.inflight + {app},
                s.ops[s.nextOp := Start(app, id, specRef, EndpointDropping)], s.nextOp + 1, s.nextCounter + 1)
    requires k.endpoints - {id} == s.endpoints - {id}
    ensures UndoAlone(k, s.nextOp) == Undone(s, app, id, specRef)
  {
    UndoPhase(k, s.nextOp);
    assert k.ops - {s.nextOp} == s.ops && k.inflight - {app} == s.inflight;
  }

  lemma UnhealthyPhase(s: Host, o: OpId)
    requires s.lock.Free? && o in s.ops && s.ops[o].Start? && s.ops[o].pc.SpawnChecking? && s.ops[o].id !in s.pool
    ensures LocalStep(LocalStep(s, o, true), o, false) == Goto(s, o, EndpointDropping)
  {
    var s1 := LocalStep(s, o, true);
    assert s1.ops == s.ops[o := s.ops[o].(pc := Booting(s.ops[o].pc.revision))];
    assert LocalStep(s1, o, false).ops == s.ops[o := s.ops[o].(pc := EndpointDropping)];
  }

  lemma UndoneIsAsBefore(s: Host, app: AppId, id: InstanceId, specRef: string)
    requires id !in s.mem.contents.instances && s.lock.Free?
    ensures AsBefore(s, Undone(s, app, id, specRef), app, id)
  {
    DiscardUndoesRegister(s.mem.contents, app, id, specRef);
  }

  lemma UnhealthyReached(s: Host, app: AppId, base: string, stampMs: nat, specRef: string)
    requires Unmet(s, app, Minted(app, base, stampMs, s.nextCounter))
    ensures UnhealthyAlone(s, app, base, stampMs, specRef)
            == Undone(s, app, Minted(app, base, stampMs, s.nextCounter), specRef)
  {
    var o, id := s.nextOp, Minted(app, base, stampMs, s.nextCounter);
    RegisterPhase(s, app, base, stampMs, specRef);
    var r := RegisterAlone(s, app, base, stampMs, specRef);
    UnhealthyPhase(r, o);
    var k := Goto(r, o, EndpointDropping);
    assert k.ops == s.ops[o := Start(app, id, specRef, EndpointDropping)];
    UndoReached(s, app, id, specRef, k);
  }

  /** A start whose child never becomes healthy leaves everything as it was: route, instances, pool,
      operations and guard; the running instance is not touched. */
  lemma UnhealthyStartIsUndone(s: Host, app: AppId, base: string, stampMs: nat, specRef: string)
    requires Inv(s) && s.lock.Free? && app !in s.inflight
    ensures AsBefore(s, UnhealthyAlone(s, app, base, stampMs, specRef), app, Minted(app, base, stampMs, s.nextCounter))
  {
    MintedIsUnmet(s, app, base, stampMs);
    UnhealthyReached(s, app, base, stampMs, specRef);
    UndoneIsAsBefore(s, app, Minted(app, base, stampMs, s.nextCounter), specRef);
  }

  // ---- A start whose cutover is refused ----

  /** From a cutover that the disk refuses: the child is stopped and the start undone. */
  function RefusedAlone(s: Host, o: OpId): Host {
    UndoAlone(LocalStep(WriteStep(AcquireStep(s, o), o, false), o, true), o)
  }

  lemma RefusalPhase(s: Host, o: OpId)
    requires s.lock.Free? && s.disk == Some(s.mem) && o in s.ops && s.ops[o].Start? && s.ops[o].pc.CuttingOver?
    ensures LocalStep(WriteStep(AcquireStep(s, o), o, false), o, true)
            == Goto(s, o, EndpointDropping).(pool := s.pool - {s.ops[o].id})
  {
    var a := AcquireStep(s, o);
    var w := WriteStep(a, o, false);
    assert w == Goto(s, o, AbortStopping);
    assert LocalStep(w, o, true).ops == s.ops[o := s.ops[o].(pc := EndpointDropping)];
  }

  lemma RefusalReached(s: Host, app: AppId, id: InstanceId, specRef: string)
    requires Unmet(s, app, id)
    ensures RefusedAlone(Ready(s, app, id, specRef), s.nextOp) == Undone(s, app, id, specRef)
  {
    var o, ready := s.nextOp, Ready(s, app, id, specRef);
    RefusalPhase(ready, o);
    var k := Goto(ready, o, EndpointDropping).(pool := ready.pool - {id});
    assert k.ops == s.ops[o := Start(app, id, specRef, EndpointDropping)];
    assert k.pool == s.pool && k.endpoints - {id} == s.endpoints - {id};
    UndoReached(s, app, id, specRef, k);
  }

  /** A start whose cutover the disk refuses is undone as well; its healthy child is stopped. */
  lemma RefusedCutoverIsUndone(s: Host, app: AppId, base: string, stampMs: nat, specRef: string)
    requires Inv(s) && s.lock.Free? && app !in s.inflight
    ensures
      var ready := SpawnAlone(RegisterAlone(s, app, base, stampMs, specRef), s.nextOp);
      AsBefore(s, RefusedAlone(ready, s.nextOp), app, Minted(app, base, stampMs, s.nextCounter))
  {
    var id := Minted(app, base, stampMs, s.nextCounter);
    MintedIsUnmet(s, app, base, stampMs);
    ReadyReached(s, app, base, stampMs, specRef);
    RefusalReached(s, app, id, specRef);
    UndoneIsAsBefore(s, app, id, specRef);
  }

  // ---- A start that is dropped ----

  /** The state that a start of `app`, dropped before its cutover, leaves. */
  function Dropped(s: Host, app: AppId, id: InstanceId, specRef: string): Host {
    var m := WithRecomputedRevision(RegisterEdit(s.mem.contents, app, id, specRef));
    s.(mem := m, disk := Some(m), pool := s.pool + {id}, endpoints := s.endpoints + {id},
       nextOp := s.nextOp + 1, nextCounter := s.nextCounter + 1)
  }

  lemma DropReached(s: Host, app: AppId, id: InstanceId, specRef: string)
    requires Unmet(s, app, id)
    ensures CancelStep(Ready(s, app, id, specRef), s.nextOp) == Dropped(s, app, id, specRef)
  {
    var ready := Ready(s, app, id, specRef);
    assert ready.ops - {s.nextOp} == s.ops && ready.inflight - {app} == s.inflight;
  }

  lemma DroppedIsStranded(s: Host, app: AppId, id: InstanceId, specRef: string)
    requires Inv(s) && !Known(s, id)
    ensures Stranded(Dropped(s, app, id, specRef), id)
  {
    var c, d := s.mem.contents, Dropped(s, app, id, specRef).mem.contents;
    forall p | p in s.ops ensures !Minds(s.ops[p], id) { assert OpOk(s, s.ops[p]); }
    forall b ensures Route(d, b).active != Some(id) {
      assert RouteOk(s, b, Route(c, b));
      assert Route(d, b).active == Route(c, b).active;
    }
  }

  /** A start dropped while it waits to cut over strands its healthy child. */
  lemma DroppedStartStrands(s: Host, app: AppId, base: string, stampMs: nat, specRef: string)
    requires Inv(s) && s.lock.Free? && app !in s.inflight
    ensures
      var o, id := s.nextOp, Minted(app, base, stampMs, s.nextCounter);
      var t := CancelStep(SpawnAlone(RegisterAlone(s, app, base, stampMs, specRef), o), o);
      Stranded(t, id) && t.ops == s.ops && t.inflight == s.inflight
  {
    var id := Minted(app, base, stampMs, s.nextCounter);
    MintedIsUnmet(s, app, base, stampMs);
    ReadyReached(s, app, base, stampMs, specRef);
    DropReached(s, app, id, specRef);
    DroppedIsStranded(s, app, id, specRef);
  }

  /** Between the endpoint table and the mutation before or after it, and inside a mutation, an
      operation cannot be dropped; anywhere else a drop ends it and changes nothing more. */
  lemma DropsAreAtAwaits(s: Host, o: OpId)
    requires o in s.ops
    ensures
      var op := s.ops[o];
      if !s.lock.Free? && s.lock.holder == o then CancelStep(s, o) == s
      else if op.Start? && (op.pc.EndpointRegistering? || op.pc.EndpointDropping? || op.pc.RetireDropping?)
      then CancelStep(s, o) == s
      else CancelStep(s, o)
           == s.(ops := s.ops - {o},
                 inflight := if op.Start? || op.Preparing? then s.inflight - {op.app} else s.inflight)
  {
  }

  // ---- A stop of nothing ----

  /** A stop of an app without processes and without an active instance changes nothing. */
  lemma StopOfNothingChangesNothing(s: Host, app: AppId)
    requires s.nextOp !in s.ops && !HoldsLock(s, s.nextOp)
    requires StopTargets(s, app, Route(s.mem.contents, app).active) == {}
    ensures LocalStep(BeginStop(s, app), s.nextOp, true) == s.(nextOp := s.nextOp + 1)
  {
    assert BeginStop(s, app).ops - {s.nextOp} == s.ops;
  }

  // ---- What a pooled process proves ----

  /** Step `k` of the run is the health check that instance `x` passed. */
  predicate PassedAt(s: Host, steps: seq<Step>, x: InstanceId, k: nat) {
    && k < |steps| && steps[k].Local? && steps[k].ok
    && var t := Exec(s, steps[..k]);
       steps[k].op in t.ops && t.ops[steps[k].op].Start?
       && t.ops[steps[k].op].id == x && t.ops[steps[k].op].pc.Booting?
  }

  lemma PooledByInsertion(s: Host, step: Step, x: InstanceId)
    requires x in Apply(s, step).pool && x !in s.pool
    ensures step.Local? && step.op in s.ops && s.ops[step.op].Start?
    ensures s.ops[step.op].id == x && s.ops[step.op].pc.SpawnInserting?
  {
  }

  predicate Inserting(s: Host, o: OpId, x: InstanceId) {
    o in s.ops && s.ops[o].Start? && s.ops[o].id == x && s.ops[o].pc.SpawnInserting?
  }

  lemma InsertingByCheck(s: Host, step: Step, o: OpId, x: InstanceId)
    requires Inserting(Apply(s, step), o, x) && !Inserting(s, o, x)
    ensures step.Local? && step.ok && step.op == o && o in s.ops && s.ops[o].Start?
    ensures s.ops[o].id == x && s.ops[o].pc.Booting?
  {
  }

  /** The instance is pooled or about to be. */
  ghost predicate Passed(s: Host, x: InstanceId) {
    x in s.pool || exists o :: Inserting(s, o, x)
  }

  lemma PassingStep(s: Host, step: Step, x: InstanceId)
    requires Passed(Apply(s, step), x) && !Passed(s, x)
    ensures step.Local? && step.ok && step.op in s.ops && s.ops[step.op].Start?
    ensures s.ops[step.op].id == x && s.ops[step.op].pc.Booting?
  {
    if x in Apply(s, step).pool {
      PooledByInsertion(s, step, x);
      assert Inserting(s, step.op, x);
    } else {
      var o :| Inserting(Apply(s, step), o, x);
      InsertingByCheck(s, step, o, x);
    }
  }

  /** Over every run: a process is in the pool only if its start once passed its health check. */
  lemma {:induction false} PooledOnlyIfHealthy(s: Host, steps: seq<Step>, x: InstanceId) returns (k: nat)
    requires Init(s) && Passed(Exec(s, steps), x)
    ensures PassedAt(s, steps, x, k)
    decreases |steps|
  {
    if steps != [] {
      var init := steps[..|steps| - 1];
      if Passed(Exec(s, init), x) {
        k := PooledOnlyIfHealthy(s, init, x);
        assert steps[..k] == init[..k];
      } else {
        k := |steps| - 1;
        PassingStep(Exec(s, init), steps[k], x);
      }
    }
  }
}
