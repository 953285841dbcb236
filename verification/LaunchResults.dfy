/** The results about the launch protocol, over every run and any number of apps. */
module LaunchResults {
  import opened Wrappers
  import opened LaunchManifests
  import opened LaunchProtocol
  import opened LaunchSafety

  // ---- Active routes are served ----

  /** In every reachable state an active instance is in the pool and desired Running. */
  lemma ActiveRoutesAreServed(s: Host, steps: seq<Step>, app: AppId)
    requires Init(s)
    ensures
      var t := Exec(s, steps);
      Route(t.mem.contents, app).active.Some? ==>
        var x := Route(t.mem.contents, app).active.value;
        x in t.pool && x in t.mem.contents.instances && t.mem.contents.instances[x].state == Running
  {
    InitInv(s);
    RunKeepsInv(s, steps);
  }

  /** The install step of a stop of `app` is about to run. */
  predicate StopCommits(s: Host, step: Step, app: AppId) {
    && step.Install? && step.op in s.ops && s.ops[step.op].StopCommitting? && s.ops[step.op].app == app
    && s.lock.Written? && s.lock.holder == step.op
  }

  /** An active route becomes empty exactly at the install of a stop of that app. */
  lemma OnlyStopEmptiesRoute(s: Host, step: Step, app: AppId)
    requires Inv(s) && Route(s.mem.contents, app).active.Some?
    ensures Route(Apply(s, step).mem.contents, app).active == None <==> StopCommits(s, step, app)
  {
    if step.Install? && step.op in s.ops && s.lock.Written? && s.lock.holder == step.op {
      EditShape(s.ops[step.op], s.mem.contents);
    }
  }

  predicate NoStopOf(s: Host, steps: seq<Step>, app: AppId)
    decreases |steps|
  {
    steps == []
    || (var init := steps[..|steps| - 1];
        NoStopOf(s, init, app) && !StopCommits(Exec(s, init), steps[|steps| - 1], app))
  }

  /** Replacing a running app never leaves it without a route: only its stop can. */
  lemma {:induction false} RunningAppStaysRouted(s: Host, steps: seq<Step>, app: AppId)
    requires Inv(s) && Route(s.mem.contents, app).active.Some?
    requires NoStopOf(s, steps, app)
    ensures Route(Exec(s, steps).mem.contents, app).active.Some?
    decreases |steps|
  {
    if steps != [] {
      var init := steps[..|steps| - 1];
      RunningAppStaysRouted(s, init, app);
      RunKeepsInv(s, init);
      OnlyStopEmptiesRoute(Exec(s, init), steps[|steps| - 1], app);
    }
  }

  // ---- Memory, disk and lost updates ----

  /** Whenever the mutation lock is free, the manifest in memory is the one on disk. */
  lemma MemoryEqualsDisk(s: Host, steps: seq<Step>)
    requires Init(s)
    ensures var t := Exec(s, steps); t.lock.Free? ==> t.disk == Some(t.mem)
  {
    InitInv(s);
    RunKeepsInv(s, steps);
  }

  /** No compare-and-set fails for staleness: a write fails only when the disk does. */
  lemma WritesAreNeverStale(s: Host, steps: seq<Step>, diskOk: bool)
    requires Init(s)
    requires Exec(s, steps).lock.Computed?
    ensures
      var t := Exec(s, steps);
      WriteIfRevisionMatches(t.disk, t.lock.expected, t.lock.next, diskOk)
      == if diskOk then Success(Some(t.lock.next)) else Failure(Io)
  {
    InitInv(s);
    RunKeepsInv(s, steps);
  }

  /** No update is lost: what an operation installs is its edit of the manifest it replaces,
      however many other mutations happened since the operation began. */
  lemma NoUpdateIsLost(s: Host, steps: seq<Step>, o: OpId)
    requires Init(s)
    requires var t := Exec(s, steps); o in t.ops && t.lock.Written? && t.lock.holder == o
    ensures
      var t := Exec(s, steps);
      && Mutates(t.ops[o])
      && Edited(t.ops[o], t.mem.contents) == Some(InstallStep(t, o).mem.contents)
      && InstallStep(t, o).disk == Some(InstallStep(t, o).mem)
  {
    InitInv(s);
    RunKeepsInv(s, steps);
  }

  // ---- Operations keep to their own app ----

  /** A mutation by an operation of one app leaves every other app's route and instances alone. */
  lemma EditTouchesOwnAppOnly(s: Host, o: OpId)
    requires Inv(s) && o in s.ops && Mutates(s.ops[o]) && Edited(s.ops[o], s.mem.contents).Some?
    ensures SameOutside(s.mem.contents, Edited(s.ops[o], s.mem.contents).value, s.ops[o].app)
  {
    var op := s.ops[o];
    assert OpOk(s, op);
    assert RouteOk(s, op.app, Route(s.mem.contents, op.app));
    EditShape(op, s.mem.contents);
  }

  lemma StepTouchesOwnAppOnly(s: Host, step: Step)
    requires Inv(s)
    requires Apply(s, step).mem != s.mem
    ensures step.Install? && step.op in s.ops
    ensures SameOutside(s.mem.contents, Apply(s, step).mem.contents, s.ops[step.op].app)
  {
    EditTouchesOwnAppOnly(s, step.op);
  }

  // ---- A failed start leaves no trace ----

  /** Instances that are not another app's. */
  predicate Ours(x: InstanceId, app: AppId) { x.Persisted? || x.app == app }

  ghost predicate SameOurs(c: Contents, d: Contents, app: AppId, except: set<InstanceId>) {
    forall x :: Ours(x, app) && x !in except ==>
      && (x in c.instances <==> x in d.instances)
      && (x in c.instances ==> c.instances[x] == d.instances[x])
  }

  /** The manifest is as it was at `before`, plus this start's own registration. */
  ghost predicate Registered(before: Contents, c: Contents, app: AppId, id: InstanceId) {
    && id in c.instances && c.instances[id].state == Running
    && Route(c, app) == Route(before, app).(candidate := Some(id))
    && SameOurs(before, c, app, {id})
    && id !in before.instances
  }

  ghost predicate Tracks(before: Contents, s: Host, o: OpId, app: AppId, id: InstanceId) {
    && o < s.nextOp
    && (o in s.ops ==>
          && s.ops[o].Start? && s.ops[o].app == app && s.ops[o].id == id && !s.ops[o].pc.Registering?
          && (!Retires(s.ops[o].pc) ==> Registered(before, s.mem.contents, app, id)))
  }

  /** A registered start stays itself, and once it retires its predecessor it never goes back. */
  predicate StaysItself(s: Host, t: Host, o: OpId)
    requires o in s.ops && s.ops[o].Start?
  {
    o in t.ops ==>
      && t.ops[o].Start? && t.ops[o].app == s.ops[o].app && t.ops[o].id == s.ops[o].id
      && !t.ops[o].pc.Registering?
      && (Retires(s.ops[o].pc) ==> Retires(t.ops[o].pc))
  }

  lemma OwnStepStaysItself(s: Host, o: OpId, ok: bool)
    requires o in s.ops && s.ops[o].Start? && !s.ops[o].pc.Registering?
    ensures StaysItself(s, StartLocal(s, o, ok), o)
  {
  }

  lemma OwnMutationStaysItself(s: Host, o: OpId, diskOk: bool)
    requires o in s.ops && s.ops[o].Start? && !s.ops[o].pc.Registering?
    ensures StaysItself(s, AcquireStep(s, o), o)
    ensures StaysItself(s, WriteStep(s, o, diskOk), o)
    ensures StaysItself(s, InstallStep(s, o), o)
  {
  }

  lemma OthersLeaveOpAlone(s: Host, step: Step, o: OpId)
    requires o in s.ops && o < s.nextOp
    requires !step.StartBegin? && !step.StopBegin? ==> step.op != o
    ensures o in Apply(s, step).ops && Apply(s, step).ops[o] == s.ops[o]
  {
  }

  lemma StartStaysItself(s: Host, step: Step, o: OpId)
    requires o in s.ops && o < s.nextOp && s.ops[o].Start? && !s.ops[o].pc.Registering?
    ensures StaysItself(s, Apply(s, step), o)
  {
    if step.StartBegin? || step.StopBegin? || step.op != o {
      OthersLeaveOpAlone(s, step, o);
    } else if step.Local? {
      OwnStepStaysItself(s, o, step.ok);
    } else if !step.Mint? && !step.Kill? {
      OwnMutationStaysItself(s, o, step.Write? && step.diskOk);
    }
  }

  lemma OwnInstallLeavesTrack(s: Host, o: OpId)
    requires Inv(s) && HoldsLock(s, o) && s.lock.Written?
    requires s.ops[o].Start? && !s.ops[o].pc.Registering?
    ensures var t := InstallStep(s, o); o in t.ops ==> t.ops[o].Start? && Retires(t.ops[o].pc)
  {
    var op := s.ops[o];
    assert OpOk(s, op);
    if op.pc.CuttingOver? {
      CutoverFindsCandidate(s, o);
      assert Route(s.mem.contents, op.app).active != Some(op.id);
    }
  }

  /** Another operation's step leaves a registered start's app as it is, unless it is the commit
      of a stop of that app: no other start of the app can be running. */
  lemma OthersKeepRegistered(before: Contents, s: Host, step: Step, o: OpId)
    requires Inv(s) && o in s.ops && s.ops[o].Start?
    requires Registered(before, s.mem.contents, s.ops[o].app, s.ops[o].id) && !StopCommits(s, step, s.ops[o].app)
    requires !step.StartBegin? && !step.StopBegin? ==> step.op != o
    ensures Registered(before, Apply(s, step).mem.contents, s.ops[o].app, s.ops[o].id)
  {
    if Apply(s, step).mem != s.mem {
      StepTouchesOwnAppOnly(s, step);
      assert Compatible(s.ops[o], s.ops[step.op]);
    }
  }

  lemma OwnStepKeepsTracks(before: Contents, s: Host, step: Step, o: OpId)
    requires Inv(s) && o in s.ops && s.ops[o].Start? && Tracks(before, s, o, s.ops[o].app, s.ops[o].id)
    requires !step.StartBegin? && !step.StopBegin? && step.op == o
    ensures Tracks(before, Apply(s, step), o, s.ops[o].app, s.ops[o].id)
  {
    StartStaysItself(s, step, o);
    if Apply(s, step).mem != s.mem { OwnInstallLeavesTrack(s, o); }
  }

  lemma StepKeepsTracks(before: Contents, s: Host, step: Step, o: OpId, app: AppId, id: InstanceId)
    requires Inv(s) && Tracks(before, s, o, app, id) && !StopCommits(s, step, app)
    ensures Tracks(before, Apply(s, step), o, app, id)
  {
    if o in s.ops {
      if !step.StartBegin? && !step.StopBegin? && step.op == o {
        OwnStepKeepsTracks(before, s, step, o);
      } else {
        OthersLeaveOpAlone(s, step, o);
        if !Retires(s.ops[o].pc) { OthersKeepRegistered(before, s, step, o); }
      }
    } else {
      OpsAreNotReborn(s, step, o);
    }
  }

  lemma OpsAreNotReborn(s: Host, step: Step, o: OpId)
    requires o !in s.ops && o < s.nextOp
    ensures o !in Apply(s, step).ops
  {
  }

  lemma {:induction false} RunKeepsTracks(before: Contents, s: Host, steps: seq<Step>,
                                       o: OpId, app: AppId, id: InstanceId)
    requires Inv(s) && Tracks(before, s, o, app, id) && NoStopOf(s, steps, app)
    ensures Tracks(before, Exec(s, steps), o, app, id)
    decreases |steps|
  {
    if steps != [] {
      var init := steps[..|steps| - 1];
      RunKeepsTracks(before, s, init, o, app, id);
      RunKeepsInv(s, init);
      StepKeepsTracks(before, Exec(s, init), steps[|steps| - 1], o, app, id);
    }
  }

  /** The app's route and instances are as at `before`, with no candidate. */
  ghost predicate NoTrace(before: Contents, c: Contents, app: AppId, id: InstanceId) {
    && Route(c, app) == Route(before, app).(candidate := None)
    && SameOurs(before, c, app, {})
    && id !in c.instances
  }

  /** The app still shows the start as its candidate, desired Running. */
  ghost predicate DeadCandidate(before: Contents, c: Contents, app: AppId, id: InstanceId) {
    && Route(c, app) == Route(before, app).(candidate := Some(id))
    && SameOurs(before, c, app, {id})
    && id in c.instances && c.instances[id].state == Running
  }

  /** The start has registered and is neither live nor gone. */
  predicate Candidate(s: Host, o: OpId) {
    o in s.ops && s.ops[o].Start? && !Retires(s.ops[o].pc)
  }

  /** How a start stands at any time between its registration and its cutover or end. */
  lemma CandidateStillRegistered(s: Host, o: OpId, steps: seq<Step>)
    requires Inv(s) && HoldsLock(s, o) && s.lock.Written?
    requires s.ops[o].Start? && s.ops[o].pc.Registering?
    requires NoStopOf(InstallStep(s, o), steps, s.ops[o].app)
    requires Candidate(Exec(InstallStep(s, o), steps), o)
    ensures
      var app, id := s.ops[o].app, s.ops[o].id;
      var t := Exec(InstallStep(s, o), steps);
      && Inv(t) && t.ops[o].app == app && t.ops[o].id == id && !t.ops[o].pc.Registering?
      && Registered(s.mem.contents, t.mem.contents, app, id)
      && (t.ops[o].pc.Discarding? ==> id !in t.pool)
  {
    var app, id := s.ops[o].app, s.ops[o].id;
    var first := InstallStep(s, o);
    assert OpOk(s, s.ops[o]);
    InstallKeepsInv(s, o);
    RunKeepsTracks(s.mem.contents, first, steps, o, app, id);
    RunKeepsInv(first, steps);
    var t := Exec(first, steps);
    assert OpOk(t, t.ops[o]);
  }

  /** A start that fails after its registration leaves its app as it was before: same active and
      previous, no candidate, the same instances; its process is not in the pool. Any steps of any
      operations may come in between, except the commit of a stop of the same app. */
  lemma FailedStartLeavesNoTrace(s: Host, o: OpId, steps: seq<Step>)
    requires Inv(s) && HoldsLock(s, o) && s.lock.Written?
    requires s.ops[o].Start? && s.ops[o].pc.Registering?
    requires NoStopOf(InstallStep(s, o), steps, s.ops[o].app)
    requires
      var t := Exec(InstallStep(s, o), steps);
      HoldsLock(t, o) && t.lock.Written? && o in t.ops && t.ops[o].Start? && t.ops[o].pc.Discarding?
    ensures
      var app, id := s.ops[o].app, s.ops[o].id;
      var t := InstallStep(Exec(InstallStep(s, o), steps), o);
      && NoTrace(s.mem.contents, t.mem.contents, app, id)
      && id !in t.pool
      && o !in t.ops && app !in t.inflight
  {
    CandidateStillRegistered(s, o, steps);
  }

  /** If the disk refuses the write of the discard, the start is over all the same, but its app
      keeps the dead id as its candidate, desired Running and not in the pool. */
  lemma RefusedDiscardLeavesDeadCandidate(s: Host, o: OpId, steps: seq<Step>)
    requires Inv(s) && HoldsLock(s, o) && s.lock.Written?
    requires s.ops[o].Start? && s.ops[o].pc.Registering?
    requires NoStopOf(InstallStep(s, o), steps, s.ops[o].app)
    requires
      var t := Exec(InstallStep(s, o), steps);
      HoldsLock(t, o) && t.lock.Computed? && o in t.ops && t.ops[o].Start? && t.ops[o].pc.Discarding?
    ensures
      var app, id := s.ops[o].app, s.ops[o].id;
      var t := WriteStep(Exec(InstallStep(s, o), steps), o, false);
      && DeadCandidate(s.mem.contents, t.mem.contents, app, id)
      && t.disk == Some(t.mem)
      && id !in t.pool
      && o !in t.ops && app !in t.inflight
  {
    CandidateStillRegistered(s, o, steps);
  }

  /** The step with which a registered start ends without having gone live. */
  predicate EndsUnlive(t: Host, o: OpId, last: Step) {
    && Candidate(t, o) && o !in Apply(t, last).ops
    && !(t.ops[o].pc.CuttingOver? && last.Install?)
  }

  /** Exactly when a start that does not go live leaves no trace. Take any run from its registration
      on in which no stop of its app commits, up to the step with which the start ends. Its app is as
      it was before the registration if and only if that step installs a discard. Otherwise the disk
      refused the discard or the start was dropped, and the id stays the app's candidate, desired
      Running. The app is in flight no more in any case, and a discarded process is not pooled. */
  lemma FailedStartLeavesNoTraceIffDiscardWritten(s: Host, o: OpId, steps: seq<Step>, last: Step)
    requires Inv(s) && HoldsLock(s, o) && s.lock.Written?
    requires s.ops[o].Start? && s.ops[o].pc.Registering?
    requires NoStopOf(InstallStep(s, o), steps, s.ops[o].app)
    requires EndsUnlive(Exec(InstallStep(s, o), steps), o, last)
    ensures
      var app, id := s.ops[o].app, s.ops[o].id;
      var t := Exec(InstallStep(s, o), steps);
      var end := Apply(t, last);
      && last in {Install(o), Write(o, false), Cancel(o)}
      && (last != Cancel(o) ==> t.ops[o].pc.Discarding? && id !in end.pool)
      && (NoTrace(s.mem.contents, end.mem.contents, app, id) <==> last == Install(o))
      && (last != Install(o) ==> DeadCandidate(s.mem.contents, end.mem.contents, app, id))
      && app !in end.inflight
  {
    var t := Exec(InstallStep(s, o), steps);
    CandidateStillRegistered(s, o, steps);
    HowACandidateEnds(t, o, last);
    if last == Install(o) {
      FailedStartLeavesNoTrace(s, o, steps);
    } else if last == Write(o, false) {
      RefusedDiscardLeavesDeadCandidate(s, o, steps);
    }
  }

  lemma HowACandidateEnds(t: Host, o: OpId, last: Step)
    requires Inv(t) && EndsUnlive(t, o, last) && !t.ops[o].pc.Registering?
    ensures last in {Install(o), Write(o, false), Cancel(o)}
    ensures last != Cancel(o) ==>
              t.ops[o].pc.Discarding? && HoldsLock(t, o) && (t.lock.Written? <==> last == Install(o))
  {
    assert o < t.nextOp;
    if last.StartBegin? || last.StopBegin? || last.op != o { OthersLeaveOpAlone(t, last, o); }
  }

  // ---- The in-flight guard ----

  /** The apps of the start operations now running. */
  function StartingApps(s: Host): set<AppId> {
    set o | o in s.ops && IsStart(s.ops[o]) :: s.ops[o].app
  }

  lemma StepKeepsGuardExact(s: Host, step: Step)
    requires Inv(s) && s.inflight == StartingApps(s)
    ensures Apply(s, step).inflight == StartingApps(Apply(s, step))
  {
    var t := Apply(s, step);
    forall app | app in s.inflight && app in t.inflight ensures app in StartingApps(t) {
      var o :| o in s.ops && IsStart(s.ops[o]) && s.ops[o].app == app;
      assert o < s.nextOp;
      if !step.StartBegin? && !step.StopBegin? && step.op == o {
        OwnStepKeepsApp(s, step, o);
      } else {
        OthersLeaveOpAlone(s, step, o);
      }
    }
    StepKeepsInv(s, step);
    GuardGrowsOnlyAtBegin(s, step);
  }

  lemma OwnStepKeepsApp(s: Host, step: Step, o: OpId)
    requires o in s.ops && IsStart(s.ops[o]) && !step.StartBegin? && !step.StopBegin? && step.op == o
    ensures
      var t := Apply(s, step);
      if o in t.ops then IsStart(t.ops[o]) && t.ops[o].app == s.ops[o].app
      else t.inflight == s.inflight - {s.ops[o].app}
  {
    match step
    case Mint(_, _, _, _) =>
    case Local(_, ok) =>
    case Kill(_, _) =>
    case Acquire(_) =>
    case Write(_, _) =>
    case Install(_) =>
    case Cancel(_) =>
  }

  lemma GuardGrowsOnlyAtBegin(s: Host, step: Step)
    requires Inv(s)
    ensures Apply(s, step).inflight <= s.inflight || (step.StartBegin? && step.app in StartingApps(Apply(s, step)))
  {
    if step.StartBegin? && step.app !in s.inflight {
      assert Apply(s, step).ops[s.nextOp] == Preparing(step.app);
    }
  }

  /** An app is held in flight exactly while one of its starts runs: the guard is never leaked. */
  lemma {:induction false} GuardIsExact(s: Host, steps: seq<Step>)
    requires Init(s)
    ensures Exec(s, steps).inflight == StartingApps(Exec(s, steps))
    decreases |steps|
  {
    InitInv(s);
    if steps != [] {
      var init := steps[..|steps| - 1];
      GuardIsExact(s, init);
      RunKeepsInv(s, init);
      StepKeepsGuardExact(Exec(s, init), steps[|steps| - 1]);
    }
  }
}
