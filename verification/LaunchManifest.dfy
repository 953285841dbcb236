/**
  The LaunchManifest: desired instances, app routes and a content revision, together with the
  edits that the start / cutover / stop protocol applies to it and the revision-checked write
  of its disk copy.
 */
module LaunchManifests {
  import opened Wrappers

  type AppId = string

  /** An instance id is either one found in a persisted manifest or one minted by this process.
      A minted id renders to `{base}@run-{stampMs}-{counter}`; `app` is the app of its spec. */
  datatype InstanceId =
    | Persisted(name: string)
    | Minted(app: AppId, base: string, stampMs: nat, counter: nat)

  datatype DesiredState = Running | Standby | Stopped

  datatype DesiredInstance = DesiredInstance(specRef: string, state: DesiredState)

  datatype RouteBinding =
    RouteBinding(active: Option<InstanceId>, candidate: Option<InstanceId>, previous: Option<InstanceId>)

  const NO_ROUTE := RouteBinding(None, None, None)

  datatype Contents = Contents(instances: map<InstanceId, DesiredInstance>, routes: map<AppId, RouteBinding>)

  /** The revision is a digest of the contents. It is kept symbolic, which makes it injective;
      `Unset` is the empty string of a document that carries no revision. */
  datatype Revision = Unset | Sha(contents: Contents)

  datatype Manifest = Manifest(revision: Revision, contents: Contents)

  function WithRecomputedRevision(c: Contents): Manifest {
    Manifest(Sha(c), c)
  }

  function EmptyManifest(): Manifest {
    WithRecomputedRevision(Contents(map[], map[]))
  }

  function Route(c: Contents, app: AppId): RouteBinding {
    if app in c.routes then c.routes[app] else NO_ROUTE
  }

  function WithState(instances: map<InstanceId, DesiredInstance>, id: InstanceId, state: DesiredState)
    : map<InstanceId, DesiredInstance>
  {
    if id in instances then instances[id := instances[id].(state := state)] else instances
  }

  // ---- The edits of the five manifest mutations ----

  function RegisterEdit(c: Contents, app: AppId, id: InstanceId, specRef: string): Contents {
    Contents(c.instances[id := DesiredInstance(specRef, Running)],
             c.routes[app := Route(c, app).(candidate := Some(id))])
  }

  function DiscardEdit(c: Contents, app: AppId, id: InstanceId): Contents {
    Contents(c.instances - {id},
             if app in c.routes && c.routes[app].candidate == Some(id)
             then c.routes[app := c.routes[app].(candidate := None)]
             else c.routes)
  }

  function RetireEdit(c: Contents, previous: InstanceId): Contents {
    c.(instances := WithState(c.instances, previous, Stopped))
  }

  function StopEdit(c: Contents, app: AppId, ids: set<InstanceId>): Contents {
    Contents(map x | x in c.instances :: if x in ids then c.instances[x].(state := Stopped) else c.instances[x],
             if app in c.routes
             then c.routes[app := RouteBinding(None, None, c.routes[app].active)]
             else c.routes)
  }

  /** `cutover_route_in_manifest`: fails when the target is not an instance of the manifest. */
  function CutoverEdit(c: Contents, app: AppId, target: InstanceId): (r: Option<Contents>) {
    if target !in c.instances then None
    else
      var route := Route(c, app);
      if route.active == Some(target) then
        Some(c.(routes := c.routes[app := route.(candidate := None)]))
      else
        var promoted := WithState(c.instances, target, Running);
        var demoted := match route.active
          case Some(was) => WithState(promoted, was, Standby)
          case None => promoted;
        Some(Contents(demoted, c.routes[app := RouteBinding(Some(target), None, route.active)]))
  }

  /** `rollback_route_in_manifest`: a cutover to the route's previous instance. */
  function RollbackEdit(c: Contents, app: AppId): Option<Contents> {
    match Route(c, app).previous
    case Some(previous) => CutoverEdit(c, app, previous)
    case None => None
  }

  // ---- The revision-checked write ----

  /** A missing or unreadable control file reads as the empty revision. */
  function DiskRevision(disk: Option<Manifest>): Revision {
    match disk
    case Some(m) => m.revision
    case None => Unset
  }

  datatype WriteError = Conflict | Io

  /** Compare-and-swap of the disk copy; `diskOk` is whether the file system accepts the write. */
  function WriteIfRevisionMatches(disk: Option<Manifest>, expected: Revision, next: Manifest, diskOk: bool)
    : Result<Option<Manifest>, WriteError>
  {
    if DiskRevision(disk) != expected then Failure(Conflict)
    else if !diskOk then Failure(Io)
    else Success(Some(next))
  }

  // ---- Who owns an entry ----

  predicate OwnedBy(id: InstanceId, app: AppId) {
    id.Minted? && id.app == app
  }

  /** Whether two manifests agree on everything that belongs to an app other than `app`:
      every other app's route, and every instance not owned by `app`. */
  ghost predicate SameOutside(c: Contents, d: Contents, app: AppId) {
    && (forall b: AppId :: b != app ==> Route(c, b) == Route(d, b))
    && (forall x: InstanceId :: !OwnedBy(x, app) ==>
          && (x in c.instances <==> x in d.instances)
          && (x in c.instances ==> c.instances[x] == d.instances[x]))
  }

  /** A discard right after the registration of a new id restores the manifest: routes keep their
      active and previous, the candidate is cleared, and the instances are as before. */
  lemma DiscardUndoesRegister(c: Contents, app: AppId, id: InstanceId, specRef: string)
    requires id !in c.instances
    ensures var d := DiscardEdit(RegisterEdit(c, app, id, specRef), app, id);
            && d.instances == c.instances
            && d.routes == c.routes[app := Route(c, app).(candidate := None)]
  {
    var d := DiscardEdit(RegisterEdit(c, app, id, specRef), app, id);
    assert d.instances == c.instances;
    assert d.routes == c.routes[app := Route(c, app).(candidate := None)];
  }

  /** What a cutover does, read off the resulting manifest: the target is active and desired
      Running, the old active (if another) is `previous` and on Standby, and nothing else moves. */
  lemma CutoverMoves(c: Contents, app: AppId, target: InstanceId)
    ensures CutoverEdit(c, app, target).Some? <==> target in c.instances
    ensures target in c.instances ==>
              var d := CutoverEdit(c, app, target).value;
              var was := Route(c, app).active;
              && Route(d, app).active == Some(target)
              && Route(d, app).candidate == None
              && (was != Some(target) ==> Route(d, app).previous == was && d.instances[target].state == Running)
              && (was == Some(target) ==>
                    Route(d, app).previous == Route(c, app).previous && d.instances == c.instances)
              && (was.Some? && was.value != target && was.value in c.instances ==>
                    d.instances[was.value].state == Standby)
              && d.instances.Keys == c.instances.Keys
              && (forall x :: x in c.instances ==> d.instances[x].specRef == c.instances[x].specRef)
              && (forall b :: b != app ==> Route(d, b) == Route(c, b))
              && (forall x :: x in c.instances && x != target && Some(x) != was ==> d.instances[x] == c.instances[x])
  {
  }

  /** A discard takes out the instance, and clears the app's candidate only if it is that instance. */
  lemma DiscardTakesOut(c: Contents, app: AppId, id: InstanceId)
    ensures
      var d, was := DiscardEdit(c, app, id), Route(c, app);
      && Route(d, app) == (if was.candidate == Some(id) then RouteBinding(was.active, None, was.previous) else was)
      && (forall b :: b != app ==> Route(d, b) == Route(c, b))
      && (forall x :: x in d.instances <==> x in c.instances && x != id)
      && (forall x :: x in d.instances ==> d.instances[x] == c.instances[x])
  {
  }

  /** A retirement stops one instance; a stop stops the listed ones and empties the app's route.
      Specs, other instances and other routes stay. */
  lemma StopsKeepTheRest(c: Contents, app: AppId, previous: InstanceId, ids: set<InstanceId>)
    ensures
      var d := RetireEdit(c, previous);
      && d.routes == c.routes && d.instances.Keys == c.instances.Keys
      && forall x :: x in c.instances ==>
           d.instances[x] == if x == previous then DesiredInstance(c.instances[x].specRef, Stopped) else c.instances[x]
    ensures
      var d := StopEdit(c, app, ids);
      && Route(d, app) == RouteBinding(None, None, Route(c, app).active)
      && (forall b :: b != app ==> Route(d, b) == Route(c, b))
      && d.instances.Keys == c.instances.Keys
      && forall x :: x in c.instances ==>
           d.instances[x] == if x in ids then DesiredInstance(c.instances[x].specRef, Stopped) else c.instances[x]
  {
  }

  // ---- Minted ids render to distinct strings ----

  function Decimal(n: nat): (s: string)
    ensures |s| > 0 && '-' !in s
    decreases n
  {
    if n < 10 then [(n as char) + '0'] else Decimal(n / 10) + [((n % 10) as char) + '0']
  }

  function DecimalValue(s: string): int {
    if s == [] then 0 else 10 * DecimalValue(s[..|s| - 1]) + (s[|s| - 1] as int - '0' as int)
  }

  lemma {:induction false} DecimalRoundTrip(n: nat)
    ensures DecimalValue(Decimal(n)) == n
    decreases n
  {
    if n < 10 {
      assert Decimal(n)[..0] == [];
    } else {
      DecimalRoundTrip(n / 10);
      assert Decimal(n)[..|Decimal(n)| - 1] == Decimal(n / 10);
    }
  }

  /** `replacement_instance_id`. */
  function RenderMinted(base: string, stampMs: nat, counter: nat): string {
    base + "@run-" + Decimal(stampMs) + "-" + Decimal(counter)
  }

  lemma LastDashSplits(p: string, q: string, d: string, e: string)
    requires '-' !in d && '-' !in e
    requires p + "-" + d == q + "-" + e
    ensures d == e
  {
    var s := p + "-" + d;
    assert s[|p|] == '-' && s == q + "-" + e;
    assert s[|q|] == '-';
    assert |p| == |q|;
    assert d == s[|p| + 1..] == e;
  }

  /** Ids minted with different counters are different strings, whatever base and clock they used. */
  lemma MintedIdsAreDistinct(b1: string, t1: nat, c1: nat, b2: string, t2: nat, c2: nat)
    requires RenderMinted(b1, t1, c1) == RenderMinted(b2, t2, c2)
    ensures c1 == c2
  {
    LastDashSplits(b1 + "@run-" + Decimal(t1), b2 + "@run-" + Decimal(t2), Decimal(c1), Decimal(c2));
    DecimalRoundTrip(c1);
    DecimalRoundTrip(c2);
  }
}
