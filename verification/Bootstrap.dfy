/** What the supervisor bootstrap does to the persisted manifest before anything is spawned. */
module Bootstrap {
  import opened Wrappers
  import opened LaunchManifests
  import opened LaunchProtocol
  import opened LaunchScenarios
  import opened Texts

  function Demoted(route: RouteBinding): RouteBinding {
    if route.active.Some? then RouteBinding(None, None, route.active) else route
  }

  function Halted(desired: DesiredInstance): DesiredInstance {
    if desired.state == Running then desired.(state := Stopped) else desired
  }

  predicate NothingToClear(c: Contents) {
    && (forall x | x in c.instances :: c.instances[x].state != Running)
    && (forall app | app in c.routes :: c.routes[app].active == None)
  }

  function Cleared(c: Contents): Contents {
    Contents(map x | x in c.instances :: Halted(c.instances[x]), map app | app in c.routes :: Demoted(c.routes[app]))
  }

  /** The manifest installed in memory under the CliOwned policy. */
  function CliOwned(m: Manifest): Manifest {
    if NothingToClear(m.contents) then m else WithRecomputedRevision(Cleared(m.contents))
  }

  /** `apps_covered_by_desired_runtime`. */
  function AppsCovered(c: Contents): set<AppId> {
    set app | app in c.routes && c.routes[app].active.Some?
              && c.routes[app].active.value in c.instances
              && c.instances[c.routes[app].active.value].state == Running
  }

  /** `apps_needing_managed_plug_ds`: the uncovered apps, in their order. */
  function NeedingPlug(apps: seq<AppId>, covered: set<AppId>): (r: seq<AppId>)
    ensures forall a :: a in r <==> a in apps && a !in covered
    ensures covered == {} ==> r == apps
  {
    if apps == [] then []
    else (if apps[0] in covered then [] else [apps[0]]) + NeedingPlug(apps[1..], covered)
  }

  /** Wherever the list is cut, the result is that of its parts, so with one app alone either shown
      or not, each listing of an uncovered app shows in its place. */
  lemma {:induction false} NeedingPlugKeepsOrder(before: seq<AppId>, after: seq<AppId>, covered: set<AppId>)
    ensures NeedingPlug(before + after, covered) == NeedingPlug(before, covered) + NeedingPlug(after, covered)
    ensures forall a :: NeedingPlug([a], covered) == if a in covered then [] else [a]
  {
    if before == [] {
      assert before + after == after;
    } else {
      var apps := before + after;
      assert apps[0] == before[0] && apps[1..] == before[1..] + after;
      NeedingPlugKeepsOrder(before[1..], after, covered);
    }
  }

  /** The in-place form: two passes that count what they change, then a rewrite if any did.
      `diskOk` is whether the rewrite reaches the disk. */
  method BootstrapCliOwned(disk: Option<Manifest>, diskOk: bool)
    returns (mem: Manifest, disk': Option<Manifest>)
    ensures mem == CliOwned(disk.GetOr(EmptyManifest()))
    ensures disk' == if mem != disk.GetOr(EmptyManifest()) && diskOk then Some(mem) else disk
  {
    mem, disk' := disk.GetOr(EmptyManifest()), disk;
    var before := mem.contents;
    var instances, stopped, todo := before.instances, 0, before.instances.Keys;
    while todo != {}
      invariant todo <= instances.Keys == before.instances.Keys
      invariant forall x :: x in before.instances ==>
                  instances[x] == if x in todo then before.instances[x] else Halted(before.instances[x])
      invariant stopped == 0 <==>
                  forall x :: x in before.instances && x !in todo ==> before.instances[x].state != Running
      invariant stopped >= 0
    {
      var x :| x in todo;
      if instances[x].state == Running {
        instances := instances[x := instances[x].(state := Stopped)];
        stopped := stopped + 1;
      }
      todo := todo - {x};
    }
    var routes, cleared, apps := before.routes, 0, before.routes.Keys;
    while apps != {}
      invariant apps <= routes.Keys == before.routes.Keys
      invariant forall a :: a in before.routes ==>
                  routes[a] == if a in apps then before.routes[a] else Demoted(before.routes[a])
      invariant cleared == 0 <==> forall a :: a in before.routes && a !in apps ==> before.routes[a].active == None
      invariant cleared >= 0
    {
      var a :| a in apps;
      if routes[a].active.Some? {
        routes := routes[a := RouteBinding(None, None, routes[a].active)];
        cleared := cleared + 1;
      }
      apps := apps - {a};
    }
    assert Contents(instances, routes) == Cleared(before);
    if stopped > 0 || cleared > 0 {
      ClearingChanges(before);
      mem := WithRecomputedRevision(Contents(instances, routes));
      if diskOk {
        disk' := Some(mem);
      }
    }
  }

  lemma ClearingChanges(c: Contents)
    ensures Cleared(c) == c <==> NothingToClear(c)
  {
    if Cleared(c) == c {
      forall x | x in c.instances ensures c.instances[x].state != Running
      { assert Cleared(c).instances[x] == c.instances[x]; }
      forall a | a in c.routes ensures c.routes[a].active == None { assert Cleared(c).routes[a] == c.routes[a]; }
    } else {
      assert NothingToClear(c) ==> Cleared(c).instances == c.instances && Cleared(c).routes == c.routes;
    }
  }

  /** From any persisted manifest: afterwards an instance that was desired Running is desired
      Stopped with the same spec, and no route is active; a former active became `previous` and its
      candidate was dropped. Nothing else changes, no app counts as covered, and a second bootstrap
      changes nothing. */
  lemma CliOwnedStartsClean(m: Manifest)
    ensures
      var c, d := m.contents, CliOwned(m).contents;
      && (forall x :: x in c.instances ==>
            var was := c.instances[x];
            x in d.instances
            && d.instances[x] == if was.state == Running then DesiredInstance(was.specRef, Stopped) else was)
      && (forall a :: a in d.routes ==> d.routes[a].active == None)
      && (forall a :: a in c.routes ==>
            a in d.routes
            && (if c.routes[a].active.Some?
                then d.routes[a].previous == c.routes[a].active && d.routes[a].candidate == None
                else d.routes[a] == c.routes[a]))
      && d.routes.Keys == c.routes.Keys && d.instances.Keys == c.instances.Keys
      && AppsCovered(d) == {}
      && CliOwned(CliOwned(m)) == CliOwned(m)
  {
    assert NothingToClear(CliOwned(m).contents);
    assert AppsCovered(CliOwned(m).contents) == {};
  }

  /** Memory and disk agree after the bootstrap exactly when a control file was there and, if it
      had anything to clear, could be rewritten. Without a control file the first mutation and
      every later one is refused as stale. */
  lemma BootAgreement(disk: Option<Manifest>, diskOk: bool)
    ensures
      var mem := CliOwned(disk.GetOr(EmptyManifest()));
      var disk' := if mem != disk.GetOr(EmptyManifest()) && diskOk then Some(mem) else disk;
      && (disk' == Some(mem) <==> disk.Some? && (NothingToClear(disk.value.contents) || diskOk))
      && (disk.None? ==> DiskRevision(disk') != mem.revision)
  {
    if disk.Some? { ClearingChanges(disk.value.contents); }
    assert NothingToClear(EmptyManifest().contents);
  }

  /** A boot that agrees is an initial state of the launch protocol, whatever was persisted. */
  lemma BootIsInitial(disk: Manifest, diskOk: bool, counter: nat)
    requires NothingToClear(disk.contents) || diskOk
    requires forall x :: x in disk.contents.instances ==> x.Persisted?
    requires forall a :: a in disk.contents.routes && disk.contents.routes[a].candidate.Some? ==>
               disk.contents.routes[a].candidate.value.Persisted?
    ensures
      var mem := CliOwned(disk);
      var disk' := if mem != disk && diskOk then mem else disk;
      Init(Host(mem, Some(disk'), Free, {}, {}, {}, map[], 0, counter))
  {
    CliOwnedStartsClean(disk);
    ClearingChanges(disk.contents);
  }

  /** In a workspace without a control file, no start or stop ever commits. */
  lemma NoControlFileNoStart(counter: nat, steps: seq<Step>)
    ensures
      var mem := CliOwned(EmptyManifest());
      var s := Host(mem, None, Free, {}, {}, {}, map[], 0, counter);
      && Exec(s, steps).mem == mem && Exec(s, steps).disk == None && Exec(s, steps).pool == {}
  {
    BootAgreement(None, true);
    var s := Host(CliOwned(EmptyManifest()), None, Free, {}, {}, {}, map[], 0, counter);
    DisagreementIsForever(s, steps);
  }

  // ---- The RevivePersisted policy ----

  predicate HasRunningActive(c: Contents, app: AppId) { app in AppsCovered(c) }

  /** The app to launch automatically: the given name trimmed, if anything is left of it. */
  function AutoApp(name: Option<string>): Option<AppId> {
    if name.Some? && Trim(name.value) != "" then Some(Trim(name.value)) else None
  }

  /** The manifest installed in memory when app `auto` is to be running; the disk is not written. */
  function RevivePersisted(m: Manifest, auto: Option<string>): Manifest {
    match AutoApp(auto)
    case None => m
    case Some(app) =>
      if HasRunningActive(m.contents, app) then m
      else
        var id := Persisted("auto-" + app);
        WithRecomputedRevision(
          Contents(m.contents.instances[id := DesiredInstance("", Running)],
                   m.contents.routes[app := RouteBinding(Some(id), None, None)]))
  }

  /** Without an automatic app, or with a blank name, nothing changes. Else the app so named ends up
      with an active instance that is desired Running: its own, if it had such a one, or else
      `auto-` and its name, without a spec. Other routes and instances stay, the call is idempotent,
      and memory still equals the manifest read exactly when there is no such app or it was covered. */
  lemma ReviveCoversAutoApp(m: Manifest, auto: Option<string>)
    ensures
      var r, app := RevivePersisted(m, auto), AutoApp(auto);
      && (app.None? ==> r == m)
      && (app.Some? ==>
            var was, now := Route(m.contents, app.value), Route(r.contents, app.value);
            var auto := Persisted("auto-" + app.value);
            if was.active.Some? && was.active.value in m.contents.instances
               && m.contents.instances[was.active.value].state == Running
            then r == m
            else
              && now == RouteBinding(Some(auto), None, None)
              && auto in r.contents.instances && r.contents.instances[auto] == DesiredInstance("", Running)
              && r.contents.instances.Keys == m.contents.instances.Keys + {auto}
              && r.revision == Sha(r.contents))
      && (forall b :: app != Some(b) ==> Route(r.contents, b) == Route(m.contents, b))
      && (forall x :: x in m.contents.instances && (app.Some? ==> x != Persisted("auto-" + app.value)) ==>
            x in r.contents.instances && r.contents.instances[x] == m.contents.instances[x])
      && RevivePersisted(r, auto) == r
      && (r == m <==> app.None? || app.value in AppsCovered(m.contents))
  {
    var r := RevivePersisted(m, auto);
    if AutoApp(auto).Some? { assert AutoApp(auto).value in AppsCovered(r.contents); }
  }

  /** After that bootstrap memory and disk agree exactly when there was no automatic app or it was
      covered already. */
  lemma ReviveAgreement(m: Manifest, auto: Option<string>)
    requires m.revision == Sha(m.contents)
    ensures DiskRevision(Some(m)) == RevivePersisted(m, auto).revision
            <==> AutoApp(auto).None? || AutoApp(auto).value in AppsCovered(m.contents)
  {
    ReviveCoversAutoApp(m, auto);
  }

  /** When an uncovered app was revived, no start or stop ever commits, whatever the supervisor
      spawned at boot: memory has a revision that the disk never had. */
  lemma RevivedHostCommitsNothing(m: Manifest, auto: Option<string>, pool: set<InstanceId>, endpoints: set<InstanceId>,
                                  counter: nat, steps: seq<Step>)
    requires m.revision == Sha(m.contents)
    requires AutoApp(auto).Some? && AutoApp(auto).value !in AppsCovered(m.contents)
    ensures
      var mem := RevivePersisted(m, auto);
      var s := Host(mem, Some(m), Free, pool, endpoints, {}, map[], 0, counter);
      Exec(s, steps).mem == mem && Exec(s, steps).disk == Some(m) && Exec(s, steps).pool == pool
  {
    var s := Host(RevivePersisted(m, auto), Some(m), Free, pool, endpoints, {}, map[], 0, counter);
    ReviveAgreement(m, auto);
    DisagreementIsForever(s, steps);
  }
}
