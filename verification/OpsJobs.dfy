/** The single-slot ops job of the Host shell, with its bounded log. */
module OpsJobs {
  import opened Wrappers

  const MAX_LOG_SUMMARY: nat := 24

  datatype Status = Running | Succeeded | Failed

  datatype AppProgress = AppProgress(appId: string, phase: string, completed: bool, message: Option<string>)

  datatype Job = Job(
    kind: string,
    status: Status,
    phase: string,
    startedAtMs: nat,
    finishedAtMs: Option<nat>,
    message: Option<string>,
    error: Option<string>,
    profile: Option<(string, string)>,
    generation: Option<string>,
    apps: seq<AppProgress>,
    logSummary: seq<string>)

  function Queued(kind: string, now: nat): Job {
    Job(kind, Running, "queued", now, None, None, None, None, None, [], ["job queued"])
  }

  /** The slot of the running job and the job finished last. */
  datatype Shell = Shell(job: Option<Job>, last: Option<Job>)

  const IDLE := Shell(None, None)

  datatype Call =
    | Begin(kind: string, now: nat)
    | BeginProfile(profileId: string, profileRevision: string, apps: seq<string>, now: nat)
    | UpdatePhase(phase: string, text: string)
    | UpdateGeneration(generation: string)
    | UpdateApp(app: string, phase: string, completed: bool, text: string)
    | Append(text: string)
    | FinishSuccess(text: string, now: nat)
    | FinishFailure(text: string, now: nat)

  // ---- What a call does to a job, apart from the log ----

  function QueuedApps(apps: seq<string>): seq<AppProgress> {
    seq(|apps|, i requires 0 <= i < |apps| => AppProgress(apps[i], "queued", false, None))
  }

  /** The job a begin puts into the slot. */
  function Started(call: Call): Job
    requires call.Begin? || call.BeginProfile?
  {
    match call
    case Begin(kind, now) => Queued(kind, now)
    case BeginProfile(id, revision, apps, now) =>
      Queued("apply-profile", now).(profile := Some((id, revision)), apps := QueuedApps(apps))
  }

  /** The first row of the app, updated. */
  function Progressed(apps: seq<AppProgress>, call: Call): seq<AppProgress>
    requires call.UpdateApp?
  {
    if apps == [] then []
    else if apps[0].appId == call.app then
      [apps[0].(phase := call.phase, completed := call.completed, message := Some(call.text))] + apps[1..]
    else [apps[0]] + Progressed(apps[1..], call)
  }

  /** The update hits the first row of the app, or none. */
  lemma {:induction false} ProgressedAt(apps: seq<AppProgress>, call: Call, k: nat)
    requires call.UpdateApp? && k <= |apps|
    requires forall j :: 0 <= j < k ==> apps[j].appId != call.app
    requires k < |apps| ==> apps[k].appId == call.app
    ensures Progressed(apps, call) ==
            if k == |apps| then apps
            else apps[k := apps[k].(phase := call.phase, completed := call.completed, message := Some(call.text))]
  {
    if apps != [] {
      assert apps == [apps[0]] + apps[1..];
      if k > 0 { ProgressedAt(apps[1..], call, k - 1); }
    }
  }

  predicate Starts(call: Call) { call.Begin? || call.BeginProfile? }
  predicate Finishes(call: Call) { call.FinishSuccess? || call.FinishFailure? }

  function Touched(job: Job, call: Call): Job
    requires !Starts(call)
  {
    match call
    case UpdatePhase(phase, _) => job.(phase := phase)
    case UpdateGeneration(generation) => job.(generation := Some(generation))
    case Append(_) => job
    case UpdateApp(_, _, _, _) => job.(apps := Progressed(job.apps, call))
    case FinishSuccess(text, now) =>
      job.(status := Succeeded, phase := "succeeded", finishedAtMs := Some(now), message := Some(text))
    case FinishFailure(text, now) =>
      job.(status := Failed, phase := "failed", finishedAtMs := Some(now), error := Some(text))
  }

  /** The message a call pushes to the log. */
  function Pushed(call: Call): string
    requires !Starts(call)
  {
    match call
    case UpdatePhase(_, text) => text
    case UpdateGeneration(generation) => "generation: " + generation
    case UpdateApp(app, _, _, text) => app + ": " + text
    case Append(text) => text
    case FinishSuccess(text, _) => text
    case FinishFailure(text, _) => text
  }

  // ---- The shell ----

  function PushLog(log: seq<string>, text: string): seq<string> {
    var longer := log + [text];
    if |longer| > MAX_LOG_SUMMARY then longer[1..] else longer
  }

  predicate Accepts(s: Shell) { s.job.None? || s.job.value.status != Running }

  function After(s: Shell, call: Call): Shell {
    if Starts(call) then
      if Accepts(s) then s.(job := Some(Started(call))) else s
    else if s.job.None? then s
    else
      var job := Touched(s.job.value, call);
      var logged := job.(logSummary := PushLog(job.logSummary, Pushed(call)));
      if Finishes(call) then Shell(None, Some(logged)) else s.(job := Some(logged))
  }

  function Run(h: seq<Call>): Shell
    decreases |h|
  {
    if h == [] then IDLE else After(Run(h[..|h| - 1]), h[|h| - 1])
  }

  class ShellState {
    var opsJob: Option<Job>
    var lastOpsJob: Option<Job>

    constructor ()
      ensures Now() == IDLE
    {
      opsJob, lastOpsJob := None, None;
    }

    ghost function Now(): Shell
      reads this
    {
      Shell(opsJob, lastOpsJob)
    }

    method BeginOpsJob(kind: string, now: nat) returns (accepted: bool)
      modifies this`opsJob
      ensures accepted <==> Accepts(old(Now()))
      ensures Now() == After(old(Now()), Begin(kind, now))
    {
      if opsJob.Some? && opsJob.value.status == Running {
        return false;
      }
      opsJob := Some(Queued(kind, now));
      return true;
    }

    method BeginProfileOpsJob(profileId: string, profileRevision: string, apps: seq<string>, now: nat)
      returns (accepted: bool)
      modifies this`opsJob
      ensures accepted <==> Accepts(old(Now()))
      ensures Now() == After(old(Now()), BeginProfile(profileId, profileRevision, apps, now))
    {
      accepted := BeginOpsJob("apply-profile", now);
      if accepted {
        var rows: seq<AppProgress> := [];
        for k := 0 to |apps|
          invariant rows == QueuedApps(apps)[..k]
        {
          rows := rows + [AppProgress(apps[k], "queued", false, None)];
        }
        assert QueuedApps(apps)[..|apps|] == QueuedApps(apps);
        opsJob := Some(opsJob.value.(profile := Some((profileId, profileRevision)), apps := rows));
      }
    }

    /** `push_log` on the job in the slot. */
    method Push(text: string)
      requires opsJob.Some?
      modifies this`opsJob
      ensures opsJob == Some(old(opsJob).value.(logSummary := PushLog(old(opsJob).value.logSummary, text)))
    {
      var log := opsJob.value.logSummary + [text];
      if |log| > MAX_LOG_SUMMARY {
        log := log[1..];
      }
      opsJob := Some(opsJob.value.(logSummary := log));
    }

    method AppendLog(text: string)
      modifies this`opsJob
      ensures Now() == After(old(Now()), Append(text))
    {
      if opsJob.Some? {
        Push(text);
      }
    }

    method UpdateOpsJobPhase(phase: string, text: string)
      modifies this`opsJob
      ensures Now() == After(old(Now()), UpdatePhase(phase, text))
    {
      if opsJob.Some? {
        opsJob := Some(opsJob.value.(phase := phase));
        Push(text);
      }
    }

    method UpdateOpsJobGeneration(generation: string)
      modifies this`opsJob
      ensures Now() == After(old(Now()), UpdateGeneration(generation))
    {
      if opsJob.Some? {
        opsJob := Some(opsJob.value.(generation := Some(generation)));
        Push("generation: " + generation);
      }
    }

    method UpdateOpsAppProgress(app: string, phase: string, completed: bool, text: string)
      modifies this`opsJob
      ensures Now() == After(old(Now()), UpdateApp(app, phase, completed, text))
    {
      if opsJob.Some? {
        var apps := opsJob.value.apps;
        var k := 0;
        while k < |apps| && apps[k].appId != app
          invariant k <= |apps|
          invariant forall j :: 0 <= j < k ==> apps[j].appId != app
        {
          k := k + 1;
        }
        ProgressedAt(apps, UpdateApp(app, phase, completed, text), k);
        if k < |apps| {
          apps := apps[k := apps[k].(phase := phase, completed := completed, message := Some(text))];
        }
        opsJob := Some(opsJob.value.(apps := apps));
        Push(app + ": " + text);
      }
    }

    method FinishOpsJobSuccess(text: string, now: nat)
      modifies this
      ensures Now() == After(old(Now()), FinishSuccess(text, now))
    {
      if opsJob.Some? {
        opsJob := Some(opsJob.value.(status := Succeeded, phase := "succeeded",
                                     finishedAtMs := Some(now), message := Some(text)));
        Push(text);
        lastOpsJob, opsJob := opsJob, None;
      }
    }

    method FinishOpsJobFailure(text: string, now: nat)
      modifies this
      ensures Now() == After(old(Now()), FinishFailure(text, now))
    {
      if opsJob.Some? {
        opsJob := Some(opsJob.value.(status := Failed, phase := "failed",
                                     finishedAtMs := Some(now), error := Some(text)));
        Push(text);
        lastOpsJob, opsJob := opsJob, None;
      }
    }
  }

  // ---- The reference: jobs with complete logs ----

  datatype Mark = Begun | Finished

  /** The jobs as they would be with unbounded logs, and the accepted begins and effective
      finishes in order. */
  datatype Reference = Reference(job: Option<Job>, last: Option<Job>, marks: seq<Mark>)

  function IdealAfter(r: Reference, call: Call): Reference {
    if Starts(call) then
      if r.job.None? then r.(job := Some(Started(call)), marks := r.marks + [Begun]) else r
    else if r.job.None? then r
    else
      var job := Touched(r.job.value, call);
      var logged := job.(logSummary := job.logSummary + [Pushed(call)]);
      if Finishes(call) then Reference(None, Some(logged), r.marks + [Finished]) else r.(job := Some(logged))
  }

  function Ideal(h: seq<Call>): Reference
    decreases |h|
  {
    if h == [] then Reference(None, None, []) else IdealAfter(Ideal(h[..|h| - 1]), h[|h| - 1])
  }

  function Newest(log: seq<string>): seq<string> {
    if |log| <= MAX_LOG_SUMMARY then log else log[|log| - MAX_LOG_SUMMARY..]
  }

  function Bounded(job: Option<Job>): Option<Job> {
    match job
    case Some(j) => Some(j.(logSummary := Newest(j.logSummary)))
    case None => None
  }

  /** Dropping the oldest line at each overflow keeps the newest 24. */
  lemma PushKeepsNewest(log: seq<string>, text: string)
    ensures PushLog(Newest(log), text) == Newest(log + [text])
  {
  }

  predicate Follows(s: Shell, r: Reference) {
    && s.job == Bounded(r.job) && s.last == Bounded(r.last)
    && (s.job.Some? ==> s.job.value.status == Running)
    && (s.last.Some? ==> s.last.value.status != Running && s.last.value.finishedAtMs.Some?)
  }

  /** What a call does to a job does not depend on its log. */
  lemma TouchedIgnoresLog(job: Job, call: Call, log: seq<string>)
    requires !Starts(call)
    ensures Touched(job.(logSummary := log), call) == Touched(job, call).(logSummary := log)
    ensures Touched(job, call).logSummary == job.logSummary
    ensures !Finishes(call) ==> Touched(job, call).status == job.status
    ensures Finishes(call) ==> Touched(job, call).status != Running && Touched(job, call).finishedAtMs.Some?
  {
  }

  lemma StepFollows(s: Shell, r: Reference, call: Call)
    requires Follows(s, r)
    ensures Follows(After(s, call), IdealAfter(r, call))
  {
    if r.job.Some? && !Starts(call) {
      TouchedIgnoresLog(r.job.value, call, s.job.value.logSummary);
      PushKeepsNewest(r.job.value.logSummary, Pushed(call));
    }
  }

  /** Over every run of calls: the job in the slot is running; it and the job finished last are
      those of the reference, each with exactly the newest 24 of all its log lines. */
  lemma {:induction false} ShellFollowsReference(h: seq<Call>)
    ensures Follows(Run(h), Ideal(h))
    decreases |h|
  {
    if h != [] {
      ShellFollowsReference(h[..|h| - 1]);
      StepFollows(Run(h[..|h| - 1]), Ideal(h[..|h| - 1]), h[|h| - 1]);
    }
  }

  predicate Alternates(r: Reference) {
    && (forall i | 0 <= i < |r.marks| :: r.marks[i] == if i % 2 == 0 then Begun else Finished)
    && (r.job.Some? <==> |r.marks| % 2 == 1)
    && (r.last.Some? <==> |r.marks| >= 2)
  }

  lemma StepAlternates(r: Reference, call: Call)
    requires Alternates(r)
    ensures Alternates(IdealAfter(r, call))
  {
    var marks := IdealAfter(r, call).marks;
    assert marks == r.marks || |marks| == |r.marks| + 1;
  }

  lemma {:induction false} IdealAlternates(h: seq<Call>)
    ensures Alternates(Ideal(h))
    decreases |h|
  {
    if h != [] {
      IdealAlternates(h[..|h| - 1]);
      StepAlternates(Ideal(h[..|h| - 1]), h[|h| - 1]);
    }
  }

  /** Accepted begins and effective finishes alternate, beginning with a begin; the slot is taken
      exactly after a begin that has not been finished. */
  lemma BeginsAndFinishesAlternate(h: seq<Call>)
    ensures
      var marks := Ideal(h).marks;
      && (forall i :: 0 <= i < |marks| ==> marks[i] == if i % 2 == 0 then Begun else Finished)
      && (Run(h).job.Some? <==> |marks| % 2 == 1)
      && (Run(h).last.Some? <==> |marks| >= 2)
  {
    IdealAlternates(h);
    ShellFollowsReference(h);
  }

  /** How a job that is running, or has finished, shows it. */
  predicate TellsHow(job: Job) {
    match job.status
    case Running => job.message.None? && job.error.None? && job.finishedAtMs.None?
    case Succeeded => job.message.Some? && job.error.None? && job.finishedAtMs.Some? && job.phase == "succeeded"
    case Failed => job.message.None? && job.error.Some? && job.finishedAtMs.Some? && job.phase == "failed"
  }

  /** Over every run, the running job has neither result nor end; the last finished job has a
      message exactly if it succeeded, an error exactly if it failed, and an end either way. */
  lemma {:induction false} JobsTellHow(h: seq<Call>)
    ensures Run(h).job.Some? ==> Run(h).job.value.status == Running && TellsHow(Run(h).job.value)
    ensures Run(h).last.Some? ==> Run(h).last.value.status != Running && TellsHow(Run(h).last.value)
    decreases |h|
  {
    if h != [] {
      JobsTellHow(h[..|h| - 1]);
    }
  }

  function Rows(job: Job): seq<string> {
    seq(|job.apps|, i requires 0 <= i < |job.apps| => job.apps[i].appId)
  }

  /** The calls on a job since it was begun. */
  function Working(job: Job, calls: seq<Call>): Job
    requires forall c :: c in calls ==> !Starts(c)
    decreases |calls|
  {
    if calls == [] then job else Touched(Working(job, calls[..|calls| - 1]), calls[|calls| - 1])
  }

  lemma {:induction false} ProgressKeepsRows(apps: seq<AppProgress>, call: Call)
    requires call.UpdateApp?
    ensures |Progressed(apps, call)| == |apps|
    ensures forall i :: 0 <= i < |apps| ==> Progressed(apps, call)[i].appId == apps[i].appId
  {
    if apps != [] { ProgressKeepsRows(apps[1..], call); }
  }

  /** A job keeps its kind, start, profile and one row per app of its begin, in order, whatever is
      called while it is in the slot. */
  lemma {:induction false} JobKeepsItsRows(job: Job, calls: seq<Call>)
    requires forall c :: c in calls ==> !Starts(c)
    ensures Rows(Working(job, calls)) == Rows(job)
    ensures Working(job, calls).(status := job.status, phase := job.phase, finishedAtMs := job.finishedAtMs,
                                 message := job.message,
                                 error := job.error, generation := job.generation, apps := job.apps) == job
    decreases |calls|
  {
    if calls != [] {
      var init, last := calls[..|calls| - 1], calls[|calls| - 1];
      JobKeepsItsRows(job, init);
      assert last in calls;
      if last.UpdateApp? { ProgressKeepsRows(Working(job, init).apps, last); }
    }
  }

  /** A begin is accepted exactly when the slot is empty, and then starts the log anew; `last` is
      replaced exactly by a finish that finds a job, and is that job. */
  lemma SlotDiscipline(h: seq<Call>, call: Call)
    ensures
      var s, t := Run(h), Run(h + [call]);
      && (Starts(call) ==> t.last == s.last && t.job == if s.job.None? then Some(Started(call)) else s.job)
      && (Finishes(call) ==> t.job == None)
      && (Finishes(call) && s.job.None? ==> t.last == s.last)
      && (Finishes(call) && s.job.Some? ==>
            t.last.Some? && t.last.value.kind == s.job.value.kind && t.last.value.startedAtMs == s.job.value.startedAtMs
            && t.last.value.status == (if call.FinishSuccess? then Succeeded else Failed)
            && t.last.value.finishedAtMs == Some(call.now))
      && (!Starts(call) && !Finishes(call) ==> t.last == s.last && (t.job.Some? <==> s.job.Some?))
  {
    assert (h + [call])[..|h|] == h;
    ShellFollowsReference(h);
  }

  // ---- What one call does, outright ----

  /** The log with one more line; the oldest of 24 goes. */
  predicate Logged(log: seq<string>, was: seq<string>, text: string) {
    log == if |was| < 24 then was + [text] else was[1..] + [text]
  }

  /** A begin on a free slot puts a running job there, with one queued row per app. */
  lemma BeginShows(s: Shell, kind: string, id: string, revision: string, apps: seq<string>, now: nat)
    requires s.job.None?
    ensures After(s, Begin(kind, now)).job
            == Some(Job(kind, Running, "queued", now, None, None, None, None, None, [], ["job queued"]))
    ensures
      var t := After(s, BeginProfile(id, revision, apps, now)).job;
      && t.Some? && |t.value.apps| == |apps|
      && t.value == Job("apply-profile", Running, "queued", now, None, None, None, Some((id, revision)), None,
                        t.value.apps, ["job queued"])
      && forall i :: 0 <= i < |apps| ==> t.value.apps[i] == AppProgress(apps[i], "queued", false, None)
  {
  }

  /** An update changes the phase, the generation or the first row of the app, and logs one line. */
  lemma UpdateShows(s: Shell, phase: string, text: string, generation: string)
    requires s.job.Some? && |s.job.value.logSummary| <= 24
    ensures
      var was, t := s.job.value, After(s, UpdatePhase(phase, text));
      t.last == s.last && t.job.Some? && Logged(t.job.value.logSummary, was.logSummary, text)
      && t.job.value == was.(phase := phase, logSummary := t.job.value.logSummary)
    ensures
      var was, t := s.job.value, After(s, UpdateGeneration(generation));
      t.last == s.last && t.job.Some? && Logged(t.job.value.logSummary, was.logSummary, "generation: " + generation)
      && t.job.value == was.(generation := Some(generation), logSummary := t.job.value.logSummary)
    ensures
      var was, t := s.job.value, After(s, Append(text));
      t.last == s.last && t.job.Some? && Logged(t.job.value.logSummary, was.logSummary, text)
      && t.job.value == was.(logSummary := t.job.value.logSummary)
  {
  }

  lemma AppUpdateShows(s: Shell, app: string, phase: string, completed: bool, text: string, k: nat)
    requires s.job.Some? && |s.job.value.logSummary| <= 24 && k <= |s.job.value.apps|
    requires forall j :: 0 <= j < k ==> s.job.value.apps[j].appId != app
    requires k < |s.job.value.apps| ==> s.job.value.apps[k].appId == app
    ensures
      var was, t := s.job.value, After(s, UpdateApp(app, phase, completed, text));
      var rows := if k == |was.apps| then was.apps else was.apps[k := AppProgress(app, phase, completed, Some(text))];
      t.last == s.last && t.job.Some? && Logged(t.job.value.logSummary, was.logSummary, app + ": " + text)
      && t.job.value == was.(apps := rows, logSummary := t.job.value.logSummary)
  {
    ProgressedAt(s.job.value.apps, UpdateApp(app, phase, completed, text), k);
  }

  /** A finish empties the slot and keeps the job as the last one, with its result. */
  lemma FinishShows(s: Shell, text: string, now: nat)
    requires s.job.Some? && |s.job.value.logSummary| <= 24
    ensures
      var was, t := s.job.value, After(s, FinishSuccess(text, now));
      t.job.None? && t.last.Some? && Logged(t.last.value.logSummary, was.logSummary, text)
      && t.last.value == was.(status := Succeeded, phase := "succeeded", finishedAtMs := Some(now),
                              message := Some(text), logSummary := t.last.value.logSummary)
    ensures
      var was, t := s.job.value, After(s, FinishFailure(text, now));
      t.job.None? && t.last.Some? && Logged(t.last.value.logSummary, was.logSummary, text)
      && t.last.value == was.(status := Failed, phase := "failed", finishedAtMs := Some(now),
                              error := Some(text), logSummary := t.last.value.logSummary)
  {
  }

  /** Without a job in the slot, and for a begin while one is there, nothing happens. */
  lemma OtherwiseNothing(h: seq<Call>, call: Call)
    ensures Starts(call) == Run(h).job.Some? ==> Run(h + [call]) == Run(h)
  {
    assert (h + [call])[..|h|] == h;
    ShellFollowsReference(h);
  }
}
