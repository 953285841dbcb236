/** Whole starts without interference, and what happens when memory and disk disagree at boot. */
module LaunchScenarios {
  import opened Wrappers
  import opened LaunchManifests
  import opened LaunchProtocol
  import opened LaunchSafety

  function Mutation(s: Host, o: OpId): Host {
    Mutated(s, o, true)
  }

  /** A start up to its registration, on a working disk. */
  function RegisterAlone(s: Host, app: AppId, base: string, stampMs: nat, specRef: string): Host {
    Mutation(MintId(BeginStart(s, app), s.nextOp, base, stampMs, specRef), s.nextOp)
  }

  /** From the registration to the cutover, with a healthy child. */
  function SpawnAlone(s: Host, o: OpId): Host {
    LocalStep(LocalStep(LocalStep(LocalStep(s, o, true), o, true), o, true), o, true)
  }

  function GoLiveAlone(s: Host, o: OpId): Host {
    Mutation(SpawnAlone(s, o), o)
  }

  function RetireAlone(s: Host, o: OpId): Host {
    Mutation(LocalStep(LocalStep(s, o, true), o, true), o)
  }

  /** In an idle host the first start registers exactly when the disk carries the revision that
      memory expects. */
  lemma RegistersIffRevisionsAgree(s: Host, app: AppId, base: string, stampMs: nat, specRef: string)
    requires s.lock.Free? && s.ops == map[] && app !in s.inflight
    ensures
      var t := RegisterAlone(s, app, base, stampMs, specRef);
      var id := Minted(app, base, stampMs, s.nextCounter);
      if DiskRevision(s.disk) == s.mem.revision then
        && t.mem.contents == RegisterEdit(s.mem.contents, app, id, specRef)
        && t.disk == Some(t.mem)
        && t.ops == map[s.nextOp := Start(app, id, specRef, SpawnChecking(t.mem.revision))]
      else
        t.mem == s.mem && t.disk == s.disk && t.ops == map[] && t.inflight == s.inflight
  {
    var b := MintId(BeginStart(s, app), s.nextOp, base, stampMs, specRef);
    assert b.ops[s.nextOp] == Start(app, Minted(app, base, stampMs, s.nextCounter), specRef, Registering);
    var a := AcquireStep(b, s.nextOp);
    assert a.lock.Computed?;
  }

  // ---- An undisturbed start, phase by phase ----

  lemma RegisterPhase(s: Host, app: AppId, base: string, stampMs: nat, specRef: string)
    requires s.disk == Some(s.mem) && s.nextOp !in s.ops && s.lock.Free? && app !in s.inflight
    ensures
      var id := Minted(app, base, stampMs, s.nextCounter);
      var m := WithRecomputedRevision(RegisterEdit(s.mem.contents, app, id, specRef));
      RegisterAlone(s, app, base, stampMs, specRef)
      == Host(m, Some(m), Free, s.pool, s.endpoints, s.inflight + {app},
              s.ops[s.nextOp := Start(app, id, specRef, SpawnChecking(m.revision))], s.nextOp + 1, s.nextCounter + 1)
  {
    var b := MintId(BeginStart(s, app), s.nextOp, base, stampMs, specRef);
    assert b.ops == s.ops[s.nextOp := Start(app, Minted(app, base, stampMs, s.nextCounter), specRef, Registering)];
    assert AcquireStep(b, s.nextOp).lock.Computed?;
  }

  lemma SpawnPhase(s: Host, o: OpId)
    requires s.lock.Free? && o in s.ops && s.ops[o].Start? && s.ops[o].pc.SpawnChecking? && s.ops[o].id !in s.pool
    ensures
      var id := s.ops[o].id;
      SpawnAlone(s, o)
      == s.(pool := s.pool + {id}, endpoints := s.endpoints + {id},
            ops := s.ops[o := s.ops[o].(pc := CuttingOver(s.ops[o].pc.revision))])
  {
    var rev := s.ops[o].pc.revision;
    var s1 := LocalStep(s, o, true);
    assert s1.ops == s.ops[o := s.ops[o].(pc := Booting(rev))];
    var s2 := LocalStep(s1, o, true);
    assert s2.ops == s.ops[o := s.ops[o].(pc := SpawnInserting(rev))];
    var s3 := LocalStep(s2, o, true);
    assert s3.ops == s.ops[o := s.ops[o].(pc := EndpointRegistering(rev))];
    var s4 := LocalStep(s3, o, true);
    assert s4.ops == s.ops[o := s.ops[o].(pc := CuttingOver(rev))];
  }

  lemma CutoverPhase(s: Host, o: OpId)
    requires s.lock.Free? && o in s.ops && s.ops[o].Start?
    requires s.ops[o].pc == CuttingOver(s.mem.revision) && s.mem.revision != Unset && s.disk == Some(s.mem)
    requires s.ops[o].id in s.endpoints && s.ops[o].id in s.mem.contents.instances
    requires Route(s.mem.contents, s.ops[o].app).active != Some(s.ops[o].id)
    ensures
      var m := WithRecomputedRevision(CutoverEdit(s.mem.contents, s.ops[o].app, s.ops[o].id).value);
      var was := Route(s.mem.contents, s.ops[o].app).active;
      var t := s.(mem := m, disk := Some(m));
      Mutation(s, o) == if was.Some? then Goto(t, o, Draining(was.value)) else End(t, o)
  {
    var a := AcquireStep(s, o);
    assert a.lock.Computed?;
    var w := WriteStep(a, o, true);
    assert w.lock.Written?;
  }

  lemma RetirePhase(s: Host, o: OpId)
    requires s.lock.Free? && o in s.ops && s.ops[o].Start? && s.ops[o].pc.Draining? && s.disk == Some(s.mem)
    ensures
      var x := s.ops[o].pc.previous;
      var m := WithRecomputedRevision(RetireEdit(s.mem.contents, x));
      RetireAlone(s, o)
      == End(s.(mem := m, disk := Some(m), pool := s.pool - {x}, endpoints := s.endpoints - {x}), o)
  {
    var x := s.ops[o].pc.previous;
    var s1 := LocalStep(s, o, true);
    assert s1.ops == s.ops[o := s.ops[o].(pc := RetireDropping(x))];
    var s2 := LocalStep(s1, o, true);
    assert s2.ops == s.ops[o := s.ops[o].(pc := Retiring(x))];
    var a := AcquireStep(s2, o);
    assert a.lock.Computed?;
    assert WriteStep(a, o, true).lock.Written?;
  }

  /** The manifest after registration, cutover and, if there was a predecessor, its retirement. */
  function LiveContents(c: Contents, app: AppId, id: InstanceId, specRef: string): Contents {
    var cut := CutoverEdit(RegisterEdit(c, app, id, specRef), app, id).value;
    match Route(c, app).active
    case Some(was) => RetireEdit(cut, was)
    case None => cut
  }

  lemma LiveContentsReplaceRoute(c: Contents, app: AppId, id: InstanceId, specRef: string)
    requires OwnedBy(id, app) && id !in c.instances
    requires Route(c, app).active != Some(id)
    requires Route(c, app).active.Some? ==>
               Route(c, app).active.value in c.instances && OwnedBy(Route(c, app).active.value, app)
    ensures
      var d := LiveContents(c, app, id, specRef);
      var was := Route(c, app).active;
      && Route(d, app) == RouteBinding(Some(id), None, was)
      && id in d.instances && d.instances[id] == DesiredInstance(specRef, Running)
      && (was.Some? ==> was.value in d.instances && d.instances[was.value].state == Stopped)
      && SameOutside(c, d, app)
  {
  }

  /** The state in which an undisturbed start ends. */
  function LiveHost(s: Host, app: AppId, id: InstanceId, specRef: string): Host {
    var m := WithRecomputedRevision(LiveContents(s.mem.contents, app, id, specRef));
    var gone := if Route(s.mem.contents, app).active.Some? then {Route(s.mem.contents, app).active.value} else {};
    s.(mem := m, disk := Some(m), pool := s.pool + {id} - gone, endpoints := s.endpoints + {id} - gone,
       nextOp := s.nextOp + 1, nextCounter := s.nextCounter + 1)
  }

  function StartAlone(s: Host, app: AppId, base: string, stampMs: nat, specRef: string): Host {
    var live := GoLiveAlone(RegisterAlone(s, app, base, stampMs, specRef), s.nextOp);
    if Route(s.mem.contents, app).active.Some? then RetireAlone(live, s.nextOp) else live
  }

  /** The state after the cutover, before a predecessor is drained. */
  function CutHost(s: Host, app: AppId, id: InstanceId, specRef: string): Host {
    var m := WithRecomputedRevision(CutoverEdit(RegisterEdit(s.mem.contents, app, id, specRef), app, id).value);
    var t := s.(mem := m, disk := Some(m), pool := s.pool + {id}, endpoints := s.endpoints + {id},
                nextOp := s.nextOp + 1, nextCounter := s.nextCounter + 1);
    match Route(s.mem.contents, app).active
    case Some(was) =>
      t.(ops := s.ops[s.nextOp := Start(app, id, specRef, Draining(was))], inflight := s.inflight + {app})
    case None => t
  }

  lemma CutReached(s: Host, app: AppId, specRef: string, k: Host)
    requires s.nextOp !in s.ops && s.lock.Free? && app !in s.inflight
    requires k.ops.Keys == s.ops.Keys + {s.nextOp} && k.ops[s.nextOp].Start?
    requires
      var id := k.ops[s.nextOp].id;
      var m := WithRecomputedRevision(RegisterEdit(s.mem.contents, app, id, specRef));
      && Route(s.mem.contents, app).active != Some(id)
      && k == Host(m, Some(m), Free, s.pool + {id}, s.endpoints + {id}, s.inflight + {app},
                   s.ops[s.nextOp := Start(app, id, specRef, CuttingOver(m.revision))],
                   s.nextOp + 1, s.nextCounter + 1)
    ensures Mutation(k, s.nextOp) == CutHost(s, app, k.ops[s.nextOp].id, specRef)
  {
    var o, id := s.nextOp, k.ops[s.nextOp].id;
    CutoverPhase(k, o);
    var m := WithRecomputedRevision(CutoverEdit(k.mem.contents, app, id).value);
    assert Route(k.mem.contents, app).active == Route(s.mem.contents, app).active;
    assert k.ops - {o} == s.ops;
    assert k.inflight - {app} == s.inflight;
    var t := k.(mem := m, disk := Some(m));
    if Route(s.mem.contents, app).active.Some? {
      assert Goto(t, o, Draining(Route(s.mem.contents, app).active.value)) == CutHost(s, app, id, specRef);
    } else {
      assert End(t, o) == CutHost(s, app, id, specRef);
    }
  }

  lemma LiveReached(s: Host, app: AppId, base: string, stampMs: nat, specRef: string)
    requires s.disk == Some(s.mem) && s.nextOp !in s.ops && s.lock.Free? && app !in s.inflight
    requires var id := Minted(app, base, stampMs, s.nextCounter);
             id !in s.pool && Route(s.mem.contents, app).active != Some(id)
    ensures GoLiveAlone(RegisterAlone(s, app, base, stampMs, specRef), s.nextOp)
            == CutHost(s, app, Minted(app, base, stampMs, s.nextCounter), specRef)
  {
    var o, id := s.nextOp, Minted(app, base, stampMs, s.nextCounter);
    RegisterPhase(s, app, base, stampMs, specRef);
    var r := RegisterAlone(s, app, base, stampMs, specRef);
    SpawnPhase(r, o);
    var k := r.(pool := r.pool + {id}, endpoints := r.endpoints + {id},
                ops := r.ops[o := r.ops[o].(pc := CuttingOver(r.mem.revision))]);
    assert k.ops == s.ops[o := Start(app, id, specRef, CuttingOver(r.mem.revision))];
    CutReached(s, app, specRef, k);
  }

  lemma RetireReached(s: Host, app: AppId, id: InstanceId, specRef: string)
    requires s.nextOp !in s.ops && s.lock.Free? && app !in s.inflight
    requires Route(s.mem.contents, app).active.Some?
    ensures RetireAlone(CutHost(s, app, id, specRef), s.nextOp) == LiveHost(s, app, id, specRef)
  {
    var cut := CutHost(s, app, id, specRef);
    RetirePhase(cut, s.nextOp);
    assert cut.ops - {s.nextOp} == s.ops;
    assert cut.inflight - {app} == s.inflight;
  }

  lemma StartAloneEndsLive(s: Host, app: AppId, base: string, stampMs: nat, specRef: string)
    requires s.disk == Some(s.mem) && s.nextOp !in s.ops && s.lock.Free? && app !in s.inflight
    requires var id := Minted(app, base, stampMs, s.nextCounter);
             id !in s.pool && Route(s.mem.contents, app).active != Some(id)
    ensures StartAlone(s, app, base, stampMs, specRef)
            == LiveHost(s, app, Minted(app, base, stampMs, s.nextCounter), specRef)
  {
    var id := Minted(app, base, stampMs, s.nextCounter);
    LiveReached(s, app, base, stampMs, specRef);
    if Route(s.mem.contents, app).active.Some? { RetireReached(s, app, id, specRef); }
  }

  /** A start that nothing disturbs goes live: the new instance is active, pooled and Running; a
      predecessor becomes `previous`, is Stopped and leaves the pool; nothing else changes. */
  lemma UndisturbedStartGoesLive(s: Host, app: AppId, base: string, stampMs: nat, specRef: string)
    requires Inv(s) && s.lock.Free? && app !in s.inflight
    ensures
      var id := Minted(app, base, stampMs, s.nextCounter);
      var was := Route(s.mem.contents, app).active;
      var t := StartAlone(s, app, base, stampMs, specRef);
      && Route(t.mem.contents, app) == RouteBinding(Some(id), None, was)
      && id in t.mem.contents.instances && t.mem.contents.instances[id] == DesiredInstance(specRef, Running)
      && (was.Some? ==> was.value in t.mem.contents.instances && t.mem.contents.instances[was.value].state == Stopped)
      && SameOutside(s.mem.contents, t.mem.contents, app)
      && t.pool == s.pool + {id} - (if was.Some? then {was.value} else {})
      && t.endpoints == s.endpoints + {id} - (if was.Some? then {was.value} else {})
      && t.disk == Some(t.mem)
      && t.ops == s.ops && t.inflight == s.inflight && t.lock.Free?
  {
    var id := Minted(app, base, stampMs, s.nextCounter);
    forall x | x in s.mem.contents.instances ensures x != id { assert Known(s, x); }
    assert RouteOk(s, app, Route(s.mem.contents, app));
    LiveContentsReplaceRoute(s.mem.contents, app, id, specRef);
    StartAloneEndsLive(s, app, base, stampMs, specRef);
  }

  /** The state in which an undisturbed start of `app` stands before its cutover. */
  function Ready(s: Host, app: AppId, id: InstanceId, specRef: string): Host {
    var m := WithRecomputedRevision(RegisterEdit(s.mem.contents, app, id, specRef));
    Host(m, Some(m), Free, s.pool + {id}, s.endpoints + {id}, s.inflight + {app},
         s.ops[s.nextOp := Start(app, id, specRef, CuttingOver(m.revision))], s.nextOp + 1, s.nextCounter + 1)
  }

  lemma ReadyReached(s: Host, app: AppId, base: string, stampMs: nat, specRef: string)
    requires s.disk == Some(s.mem) && s.nextOp !in s.ops && s.lock.Free? && app !in s.inflight
    requires Minted(app, base, stampMs, s.nextCounter) !in s.pool
    ensures SpawnAlone(RegisterAlone(s, app, base, stampMs, specRef), s.nextOp)
            == Ready(s, app, Minted(app, base, stampMs, s.nextCounter), specRef)
  {
    var o, id := s.nextOp, Minted(app, base, stampMs, s.nextCounter);
    RegisterPhase(s, app, base, stampMs, specRef);
    var r := RegisterAlone(s, app, base, stampMs, specRef);
    SpawnPhase(r, o);
    assert s.ops[o := r.ops[o]][o := r.ops[o].(pc := CuttingOver(r.mem.revision))]
        == s.ops[o := Start(app, id, specRef, CuttingOver(r.mem.revision))];
  }

  // ---- An undisturbed stop ----

  function KillAll(s: Host, o: OpId, victims: seq<InstanceId>): Host
    decreases |victims|
  {
    if victims == [] then s else KillStep(KillAll(s, o, victims[..|victims| - 1]), o, victims[|victims| - 1])
  }

  /** A stop whose kills return in the order of `victims`. */
  function StopAlone(s: Host, app: AppId, victims: seq<InstanceId>): Host {
    var collected := LocalStep(BeginStop(s, app), s.nextOp, true);
    LocalStep(KillAll(Mutation(collected, s.nextOp), s.nextOp, victims), s.nextOp, true)
  }

  /** The state after the kills of `hit`. */
  function Without(s: Host, o: OpId, hit: set<InstanceId>): Host
    requires o in s.ops && s.ops[o].StopKilling?
  {
    s.(pool := s.pool - hit, ops := s.ops[o := s.ops[o].(ids := s.ops[o].ids - hit)])
  }

  lemma KillOne(s: Host, o: OpId, hit: set<InstanceId>, victim: InstanceId)
    requires o in s.ops && s.ops[o].StopKilling?
    ensures KillStep(Without(s, o, hit), o, victim)
            == Without(s, o, if victim in s.ops[o].ids then hit + {victim} else hit)
  {
    var ids := s.ops[o].ids;
    if victim in ids - hit {
      assert s.pool - hit - {victim} == s.pool - (hit + {victim}) && ids - hit - {victim} == ids - (hit + {victim});
    } else if victim in ids {
      assert hit + {victim} == hit;
    }
  }

  lemma {:induction false} KillAllKills(s: Host, o: OpId, victims: seq<InstanceId>)
    requires o in s.ops && s.ops[o].StopKilling?
    ensures KillAll(s, o, victims) == Without(s, o, set x | x in victims && x in s.ops[o].ids)
    decreases |victims|
  {
    var ids := s.ops[o].ids;
    var hit := set x | x in victims && x in ids;
    if victims == [] {
      assert hit == {} && ids - hit == ids && s.pool - hit == s.pool;
      assert s.ops[o := s.ops[o].(ids := ids)] == s.ops;
    } else {
      var init, last := victims[..|victims| - 1], victims[|victims| - 1];
      KillAllKills(s, o, init);
      assert victims == init + [last];
      var before := set x | x in init && x in ids;
      assert hit == if last in ids then before + {last} else before;
      KillOne(s, o, before, last);
    }
  }

  lemma StopPhase(s: Host, app: AppId)
    requires s.disk == Some(s.mem) && s.nextOp !in s.ops && s.lock.Free?
    requires StopTargets(s, app, Route(s.mem.contents, app).active) != {}
    ensures
      var ids := StopTargets(s, app, Route(s.mem.contents, app).active);
      var m := WithRecomputedRevision(StopEdit(s.mem.contents, app, ids));
      Mutation(LocalStep(BeginStop(s, app), s.nextOp, true), s.nextOp)
      == s.(mem := m, disk := Some(m), endpoints := s.endpoints - ids,
            ops := s.ops[s.nextOp := StopKilling(app, ids)], nextOp := s.nextOp + 1)
  {
    var ids := StopTargets(s, app, Route(s.mem.contents, app).active);
    var c := LocalStep(BeginStop(s, app), s.nextOp, true);
    assert c.ops == s.ops[s.nextOp := StopCommitting(app, ids)];
    var a := AcquireStep(c, s.nextOp);
    assert a.lock.Computed?;
    assert WriteStep(a, s.nextOp, true).lock.Written?;
  }

  lemma StopAloneEnds(s: Host, app: AppId, victims: seq<InstanceId>)
    requires s.disk == Some(s.mem) && s.nextOp !in s.ops && s.lock.Free?
    requires var ids := StopTargets(s, app, Route(s.mem.contents, app).active);
             ids != {} && forall x :: x in ids ==> x in victims
    ensures
      var ids := StopTargets(s, app, Route(s.mem.contents, app).active);
      var m := WithRecomputedRevision(StopEdit(s.mem.contents, app, ids));
      StopAlone(s, app, victims)
      == s.(mem := m, disk := Some(m), pool := s.pool - ids, endpoints := s.endpoints - ids, nextOp := s.nextOp + 1)
  {
    var ids := StopTargets(s, app, Route(s.mem.contents, app).active);
    StopPhase(s, app);
    var k := Mutation(LocalStep(BeginStop(s, app), s.nextOp, true), s.nextOp);
    KillAllKills(k, s.nextOp, victims);
    assert (set x | x in victims && x in ids) == ids && ids - ids == {};
    assert k.ops - {s.nextOp} == s.ops;
  }

  lemma StopEditClearsRoute(c: Contents, app: AppId, ids: set<InstanceId>)
    requires forall x :: x in ids ==> OwnedBy(x, app)
    ensures
      var d := StopEdit(c, app, ids);
      && Route(d, app) == RouteBinding(None, None, Route(c, app).active)
      && (forall x :: x in ids && x in c.instances ==> x in d.instances && d.instances[x].state == Stopped)
      && SameOutside(c, d, app)
  {
  }

  /** A stop that nothing disturbs, whose kills return in any order: the route is empty with the
      old active as `previous`, every process of the app is gone and desired Stopped, and nothing
      of another app changes. */
  lemma UndisturbedStopTakesDown(s: Host, app: AppId, victims: seq<InstanceId>)
    requires Inv(s) && s.lock.Free?
    requires var ids := StopTargets(s, app, Route(s.mem.contents, app).active);
             ids != {} && forall x :: x in ids ==> x in victims
    ensures
      var was := Route(s.mem.contents, app).active;
      var t := StopAlone(s, app, victims);
      && Route(t.mem.contents, app) == RouteBinding(None, None, was)
      && (forall x :: x in t.pool <==> x in s.pool && !OwnedBy(x, app))
      && (forall x :: x in s.pool || Some(x) == was ==>
            (x in t.endpoints <==> x in s.endpoints && !OwnedBy(x, app)))
      && (forall x :: x in s.pool && OwnedBy(x, app) && x in s.mem.contents.instances ==>
            x in t.mem.contents.instances && t.mem.contents.instances[x].state == Stopped)
      && SameOutside(s.mem.contents, t.mem.contents, app)
      && t.disk == Some(t.mem) && t.ops == s.ops && t.inflight == s.inflight && t.lock.Free?
  {
    assert RouteOk(s, app, Route(s.mem.contents, app));
    StopAloneEnds(s, app, victims);
    StopEditClearsRoute(s.mem.contents, app, StopTargets(s, app, Route(s.mem.contents, app).active));
  }

  // ---- Disagreement at boot ----

  /** Nothing has been committed since a boot at which disk and memory disagreed. */
  ghost predicate Stuck(s: Host, mem: Manifest, disk: Option<Manifest>) {
    && s.mem == mem && s.disk == disk && DiskRevision(disk) != mem.revision
    && !s.lock.Written?
    && (s.lock.Computed? ==> s.lock.expected == mem.revision)
    && (forall o :: o in s.ops && s.ops[o].Start? ==> s.ops[o].pc.Registering?)
    && (forall o :: o in s.ops ==> !s.ops[o].StopKilling?)
  }

  lemma StuckStays(s: Host, step: Step, mem: Manifest, disk: Option<Manifest>)
    requires Stuck(s, mem, disk)
    ensures Stuck(Apply(s, step), mem, disk) && Apply(s, step).pool == s.pool
  {
  }

  /** When the revisions of memory and disk differ at boot, no start or stop ever commits: both
      copies and the pool stay as they were, whatever is attempted. */
  lemma {:induction false} DisagreementIsForever(s: Host, steps: seq<Step>)
    requires s.lock.Free? && s.ops == map[] && DiskRevision(s.disk) != s.mem.revision
    ensures Stuck(Exec(s, steps), s.mem, s.disk) && Exec(s, steps).pool == s.pool
    decreases |steps|
  {
    if steps != [] {
      DisagreementIsForever(s, steps[..|steps| - 1]);
      StuckStays(Exec(s, steps[..|steps| - 1]), steps[|steps| - 1], s.mem, s.disk);
    }
  }
}
