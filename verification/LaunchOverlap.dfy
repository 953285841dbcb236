/** Starts of different apps that overlap: a cutover is admitted only over the very manifest its
    registration installed, so at most one of the registered starts can go live next. */
module LaunchOverlap {
  import opened Wrappers
  import opened LaunchManifests
  import opened LaunchProtocol
  import opened LaunchSafety
  import opened LaunchScenarios

  /** A start between its registration and its cutover; it carries the revision it registered. */
  predicate Pending(op: Op) { op.Start? && HasRevision(op.pc) }

  predicate Unregistered(op: Op) { op.Start? && op.pc.Registering? }

  ghost predicate ClaimOk(s: Host, op: Op)
    requires Pending(op)
  {
    && op.pc.revision.Sha?
    && op.id in op.pc.revision.contents.instances
    && forall x :: x in op.pc.revision.contents.instances ==> Known(s, x)
  }

  predicate Apart(a: Op, b: Op)
    requires Pending(a) && a.pc.revision.Sha?
  {
    && (Unregistered(b) ==> b.id !in a.pc.revision.contents.instances)
    && (Pending(b) ==> a.pc.revision != b.pc.revision)
  }

  ghost predicate ClaimsInv(s: Host) {
    && (forall o :: o in s.ops && Pending(s.ops[o]) ==> ClaimOk(s, s.ops[o]))
    && (forall o, p :: o in s.ops && p in s.ops && o != p && Pending(s.ops[o]) ==> Apart(s.ops[o], s.ops[p]))
  }

  // ---- Every step keeps the claims apart ----

  /** `b` claims nothing that `a` did not. */
  predicate NoNewClaim(a: Op, b: Op) {
    && (Pending(b) ==> Pending(a) && b.id == a.id && b.pc.revision == a.pc.revision)
    && (Unregistered(b) ==> Unregistered(a) && b.id == a.id)
  }

  lemma ClaimsStay(s: Host, t: Host, o: OpId)
    requires ClaimsInv(s) && s.nextCounter <= t.nextCounter
    requires forall p :: p in t.ops && p != o ==> p in s.ops && t.ops[p] == s.ops[p]
    requires o in t.ops ==>
               (o in s.ops && NoNewClaim(s.ops[o], t.ops[o])) || (!Pending(t.ops[o]) && !Unregistered(t.ops[o]))
    ensures ClaimsInv(t)
  {
  }

  lemma BeginKeepsClaims(s: Host, app: AppId)
    requires ClaimsInv(s)
    ensures ClaimsInv(BeginStart(s, app)) && ClaimsInv(BeginStop(s, app))
  {
    ClaimsStay(s, BeginStart(s, app), s.nextOp);
    ClaimsStay(s, BeginStop(s, app), s.nextOp);
  }

  lemma LocalMakesNoClaim(s: Host, o: OpId, ok: bool)
    requires o in s.ops && o in LocalStep(s, o, ok).ops
    ensures NoNewClaim(s.ops[o], LocalStep(s, o, ok).ops[o])
  {
  }

  lemma LocalTouchesOwnOp(s: Host, o: OpId, ok: bool)
    ensures var t := LocalStep(s, o, ok);
            t.ops - {o} == s.ops - {o} && t.nextCounter == s.nextCounter && (o in t.ops ==> o in s.ops)
  {
  }

  lemma LocalKeepsClaims(s: Host, o: OpId, ok: bool)
    requires ClaimsInv(s)
    ensures ClaimsInv(LocalStep(s, o, ok))
  {
    if o in s.ops {
      var t := LocalStep(s, o, ok);
      if o in t.ops { LocalMakesNoClaim(s, o, ok); }
      LocalTouchesOwnOp(s, o, ok);
      forall p | p in t.ops && p != o ensures p in s.ops && t.ops[p] == s.ops[p] {
        assert p in t.ops - {o} && (t.ops - {o})[p] == (s.ops - {o})[p];
      }
      ClaimsStay(s, t, o);
    }
  }

  lemma AcquireKeepsClaims(s: Host, o: OpId)
    requires ClaimsInv(s)
    ensures ClaimsInv(AcquireStep(s, o))
  {
    if o in s.ops { ClaimsStay(s, AcquireStep(s, o), o); }
  }

  lemma WriteKeepsClaims(s: Host, o: OpId, diskOk: bool)
    requires ClaimsInv(s)
    ensures ClaimsInv(WriteStep(s, o, diskOk))
  {
    if o in s.ops { ClaimsStay(s, WriteStep(s, o, diskOk), o); }
  }

  lemma MintKeepsClaims(s: Host, o: OpId, base: string, stampMs: nat, specRef: string)
    requires Inv(s) && ClaimsInv(s)
    ensures ClaimsInv(MintId(s, o, base, stampMs, specRef))
  {
    if o in s.ops && s.ops[o].Preparing? {
      var t := MintId(s, o, base, stampMs, specRef);
      forall p | p in t.ops && p != o && Pending(t.ops[p]) ensures Apart(t.ops[p], t.ops[o]) {
        assert ClaimOk(s, s.ops[p]);
        assert !Known(s, t.ops[o].id);
      }
    }
  }

  /** The revision a registration installs is no other start's: it holds an id that no earlier
      registration could have. */
  lemma RegistrationKeepsClaims(s: Host, o: OpId)
    requires Inv(s) && ClaimsInv(s) && HoldsLock(s, o) && s.lock.Written? && Unregistered(s.ops[o])
    ensures ClaimsInv(InstallStep(s, o))
  {
    var t := InstallStep(s, o);
    var op := s.ops[o];
    assert OpOk(s, op);
    assert t.ops[o].pc == SpawnChecking(Sha(RegisterEdit(s.mem.contents, op.app, op.id, op.specRef)));
    assert ClaimOk(t, t.ops[o]);
    forall p | p in t.ops && p != o
      ensures Apart(t.ops[o], t.ops[p]) && (Pending(t.ops[p]) ==> Apart(t.ops[p], t.ops[o])) {
      assert OpOk(s, s.ops[p]) && Compatible(op, s.ops[p]);
      if Pending(s.ops[p]) { assert Apart(s.ops[p], op); }
    }
  }

  lemma InstallKeepsClaims(s: Host, o: OpId)
    requires Inv(s) && ClaimsInv(s)
    ensures ClaimsInv(InstallStep(s, o))
  {
    if o in s.ops && Mutates(s.ops[o]) && s.lock.Written? && s.lock.holder == o {
      if Unregistered(s.ops[o]) {
        RegistrationKeepsClaims(s, o);
      } else {
        ClaimsStay(s, InstallStep(s, o), o);
      }
    }
  }

  lemma StepKeepsClaims(s: Host, step: Step)
    requires Inv(s) && ClaimsInv(s)
    ensures ClaimsInv(Apply(s, step))
  {
    match step
    case StartBegin(app) => BeginKeepsClaims(s, app);
    case StopBegin(app) => BeginKeepsClaims(s, app);
    case Mint(o, base, stampMs, specRef) => MintKeepsClaims(s, o, base, stampMs, specRef);
    case Local(o, ok) => LocalKeepsClaims(s, o, ok);
    case Kill(o, victim) => ClaimsStay(s, KillStep(s, o, victim), o);
    case Acquire(o) => AcquireKeepsClaims(s, o);
    case Write(o, diskOk) => WriteKeepsClaims(s, o, diskOk);
    case Install(o) => InstallKeepsClaims(s, o);
    case Cancel(o) => ClaimsStay(s, CancelStep(s, o), o);
  }

  lemma {:induction false} RunKeepsClaims(s: Host, steps: seq<Step>)
    requires Inv(s) && ClaimsInv(s)
    ensures ClaimsInv(Exec(s, steps))
    decreases |steps|
  {
    if steps != [] {
      var init := steps[..|steps| - 1];
      RunKeepsClaims(s, init);
      RunKeepsInv(s, init);
      StepKeepsClaims(Exec(s, init), steps[|steps| - 1]);
    }
  }

  // ---- Results ----

  /** In every reachable state, a start that has come to its cutover is admitted exactly when the
      manifest is the one its registration installed: any net change since, by whichever app,
      makes it fail. */
  lemma CutoverAdmittedIffUnchanged(s: Host, steps: seq<Step>, o: OpId)
    requires Init(s)
    requires var t := Exec(s, steps); t.lock.Free? && o in t.ops && t.ops[o].Start? && t.ops[o].pc.CuttingOver?
    ensures
      var t := Exec(s, steps);
      && t.ops[o].pc.revision.Sha?
      && (AcquireStep(t, o).lock.Computed? <==> t.mem.contents == t.ops[o].pc.revision.contents)
      && (!AcquireStep(t, o).lock.Computed? ==>
            o in AcquireStep(t, o).ops && AcquireStep(t, o).ops[o].pc == AbortStopping)
  {
    InitInv(s);
    RunKeepsInv(s, steps);
    RunKeepsClaims(s, steps);
    var t := Exec(s, steps);
    assert StartOk(t, t.ops[o].app, t.ops[o].id, t.ops[o].pc);
    assert ClaimOk(t, t.ops[o]);
  }

  /** Starts of different apps may run in parallel, but among those registered at one time the
      manifest can match at most one: the others, if they cut over now, are undone. */
  lemma AtMostOneStartCanCutOver(s: Host, steps: seq<Step>, o: OpId, p: OpId)
    requires Init(s) && o != p
    requires var t := Exec(s, steps); o in t.ops && p in t.ops && Pending(t.ops[o]) && Pending(t.ops[p])
    ensures
      var t := Exec(s, steps);
      && !(t.mem.revision == t.ops[o].pc.revision && t.mem.revision == t.ops[p].pc.revision)
      && (t.lock.Free? && t.ops[o].pc.CuttingOver? && t.ops[p].pc.CuttingOver? ==>
            AcquireStep(t, o).lock.Free? || AcquireStep(t, p).lock.Free?)
  {
    InitInv(s);
    RunKeepsInv(s, steps);
    RunKeepsClaims(s, steps);
    var t := Exec(s, steps);
    assert Apart(t.ops[o], t.ops[p]);
    if t.lock.Free? && t.ops[o].pc.CuttingOver? && t.ops[p].pc.CuttingOver? {
      assert StartOk(t, t.ops[o].app, t.ops[o].id, t.ops[o].pc);
    }
  }

  lemma ReadyIsAdmitted(s: Host, app: AppId, id: InstanceId, specRef: string)
    ensures AcquireStep(Ready(s, app, id, specRef), s.nextOp).lock.Computed?
  {
  }

  lemma RegistrationSpoilsCutover(s: Host, o: OpId, b: AppId, base: string, stampMs: nat, specRef: string)
    requires s.disk == Some(s.mem) && s.nextOp !in s.ops && s.lock.Free? && b !in s.inflight
    requires o in s.ops && s.ops[o].Start? && s.ops[o].pc == CuttingOver(s.mem.revision) && Coherent(s.mem)
    requires Minted(b, base, stampMs, s.nextCounter) !in s.mem.contents.instances
    ensures
      var t := AcquireStep(RegisterAlone(s, b, base, stampMs, specRef), o);
      o in t.ops && t.ops[o] == s.ops[o].(pc := AbortStopping)
  {
    RegisterPhase(s, b, base, stampMs, specRef);
    var both := RegisterAlone(s, b, base, stampMs, specRef);
    assert Minted(b, base, stampMs, s.nextCounter) in both.mem.contents.instances;
    assert both.mem.revision != s.mem.revision;
  }

  lemma MintedIsNew(s: Host, id: InstanceId)
    requires Inv(s) && id.Minted? && id.counter >= s.nextCounter
    ensures id !in s.pool && id !in s.mem.contents.instances && s.nextOp !in s.ops
  {
    assert !Known(s, id);
  }

  /** An input on which that happens, in every state with the lock free: a start of one app runs up
      to its cutover, which would be admitted; a start of another app registers; and the first is
      undone. */
  lemma OverlappingStartIsUndone(s: Host, a: AppId, b: AppId, base: string, stampMs: nat, specRef: string)
    requires Inv(s) && s.lock.Free? && a != b && a !in s.inflight && b !in s.inflight
    ensures
      var o, id := s.nextOp, Minted(a, base, stampMs, s.nextCounter);
      var first := SpawnAlone(RegisterAlone(s, a, base, stampMs, specRef), o);
      var second := AcquireStep(RegisterAlone(first, b, base, stampMs, specRef), o);
      && AcquireStep(first, o).lock.Computed?
      && o in second.ops && second.ops[o] == Start(a, id, specRef, AbortStopping)
  {
    var o, id := s.nextOp, Minted(a, base, stampMs, s.nextCounter);
    var first, id2 := Ready(s, a, id, specRef), Minted(b, base, stampMs, s.nextCounter + 1);
    MintedIsNew(s, id);
    MintedIsNew(s, id2);
    ReadyReached(s, a, base, stampMs, specRef);
    ReadyIsAdmitted(s, a, id, specRef);
    RegistrationSpoilsCutover(first, o, b, base, stampMs, specRef);
  }
}
