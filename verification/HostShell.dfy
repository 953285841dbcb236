/**
  The Host's two manifest copies and its endpoint table, updated in place by the five critical
  sections of the launch protocol. Each method is one whole section under the mutation lock; its
  contract is the protocol's edit, committed by a revision-checked write.
 */
module HostShells {
  import opened Wrappers
  import opened LaunchManifests
  import opened LaunchProtocol

  datatype Copies = Copies(mem: Manifest, disk: Option<Manifest>)

  /** Write `next` if the disk still has revision `expected`, then install it; else change nothing. */
  function Commit(s: Copies, expected: Revision, next: Contents, diskOk: bool): Copies {
    match WriteIfRevisionMatches(s.disk, expected, WithRecomputedRevision(next), diskOk)
    case Success(disk) => Copies(WithRecomputedRevision(next), disk)
    case Failure(_) => s
  }

  datatype CutoverError = RevisionConflict | NotReady | NotFound | WriteFailed(error: WriteError)

  datatype CutoverResult = CutoverResult(active: InstanceId, previous: Option<InstanceId>, revision: Revision)

  class HostShell {
    var launchManifest: Manifest
    var disk: Option<Manifest>
    var endpoints: set<InstanceId>

    constructor (manifest: Manifest, disk: Option<Manifest>)
      ensures launchManifest == manifest && this.disk == disk && endpoints == {}
    {
      launchManifest, this.disk, endpoints := manifest, disk, {};
    }

    ghost function Now(): Copies
      reads this
    {
      Copies(launchManifest, disk)
    }

    method WriteIfMatches(expected: Revision, next: Manifest, diskOk: bool) returns (r: Result<(), WriteError>)
      modifies this`disk
      ensures
        var onDisk := if old(disk).Some? then old(disk).value.revision else Unset;
        r == if onDisk != expected then Failure(Conflict) else if !diskOk then Failure(Io) else Success(())
      ensures disk == if r.Success? then Some(next) else old(disk)
    {
      if DiskRevision(disk) != expected {
        return Failure(Conflict);
      }
      if !diskOk {
        return Failure(Io);
      }
      disk := Some(next);
      return Success(());
    }

    method RegisterStartCandidate(app: AppId, id: InstanceId, specRef: string, diskOk: bool)
      returns (r: Result<Revision, WriteError>)
      modifies this`launchManifest, this`disk
      ensures Now() == Commit(old(Now()), old(launchManifest.revision),
                              RegisterEdit(old(launchManifest.contents), app, id, specRef), diskOk)
      ensures r.Success? <==> DiskRevision(old(disk)) == old(launchManifest.revision) && diskOk
      ensures r.Success? ==> r.value == launchManifest.revision
    {
      var expected := launchManifest.revision;
      var instances := launchManifest.contents.instances[id := DesiredInstance(specRef, Running)];
      var route := Route(launchManifest.contents, app);
      route := route.(candidate := Some(id));
      var next := WithRecomputedRevision(Contents(instances, launchManifest.contents.routes[app := route]));
      var written := WriteIfMatches(expected, next, diskOk);
      if written.Failure? {
        return Failure(written.error);
      }
      launchManifest := next;
      return Success(next.revision);
    }

    method DiscardStartCandidate(app: AppId, id: InstanceId, diskOk: bool)
      modifies this
      ensures endpoints == old(endpoints) - {id}
      ensures Now() == Commit(old(Now()), old(launchManifest.revision),
                              DiscardEdit(old(launchManifest.contents), app, id), diskOk)
    {
      endpoints := endpoints - {id};
      var expected := launchManifest.revision;
      var next := launchManifest.contents;
      next := next.(instances := next.instances - {id});
      if app in next.routes && next.routes[app].candidate == Some(id) {
        next := next.(routes := next.routes[app := next.routes[app].(candidate := None)]);
      }
      var written := WriteIfMatches(expected, WithRecomputedRevision(next), diskOk);
      if written.Success? {
        launchManifest := WithRecomputedRevision(next);
      }
    }

    method RetirePrevious(previous: InstanceId, diskOk: bool)
      modifies this
      ensures endpoints == old(endpoints) - {previous}
      ensures Now() == Commit(old(Now()), old(launchManifest.revision),
                              RetireEdit(old(launchManifest.contents), previous), diskOk)
    {
      endpoints := endpoints - {previous};
      var expected := launchManifest.revision;
      var next := launchManifest.contents;
      if previous in next.instances {
        var stopped := next.instances[previous].(state := Stopped);
        next := next.(instances := next.instances[previous := stopped]);
      }
      var written := WriteIfMatches(expected, WithRecomputedRevision(next), diskOk);
      if written.Success? {
        launchManifest := WithRecomputedRevision(next);
      }
    }

    /** The manifest section of a stop: the route gives up its active, and each listed instance
        that the manifest knows is desired Stopped. */
    method StopRoute(app: AppId, ids: seq<InstanceId>, diskOk: bool) returns (r: Result<(), WriteError>)
      modifies this
      ensures Now() == Commit(old(Now()), old(launchManifest.revision),
                              StopEdit(old(launchManifest.contents), app, set x | x in ids), diskOk)
      ensures r.Success? <==> DiskRevision(old(disk)) == old(launchManifest.revision) && diskOk
      ensures endpoints == if r.Success? then old(endpoints) - (set x | x in ids) else old(endpoints)
    {
      var expected := launchManifest.revision;
      var routes := launchManifest.contents.routes;
      if app in routes {
        routes := routes[app := RouteBinding(None, None, routes[app].active)];
      }
      var before := launchManifest.contents.instances;
      var instances := before;
      for k := 0 to |ids|
        invariant instances.Keys == before.Keys
        invariant forall x :: x in before ==>
                    instances[x] == if x in ids[..k] then before[x].(state := Stopped) else before[x]
      {
        if ids[k] in instances {
          instances := instances[ids[k] := instances[ids[k]].(state := Stopped)];
        }
      }
      assert ids[..|ids|] == ids;
      var next := Contents(instances, routes);
      assert next == StopEdit(launchManifest.contents, app, set x | x in ids);
      r := WriteIfMatches(expected, WithRecomputedRevision(next), diskOk);
      if r.Failure? {
        return;
      }
      for k := 0 to |ids|
        invariant endpoints == old(endpoints) - (set x | x in ids[..k])
        modifies this`endpoints
      {
        endpoints := endpoints - {ids[k]};
      }
      launchManifest := WithRecomputedRevision(next);
    }

    /** `execute_cutover`, for a pool holding the instances `pool`. */
    method ExecuteCutover(app: AppId, id: InstanceId, expected: Revision, pool: set<InstanceId>, diskOk: bool)
      returns (r: Result<CutoverResult, CutoverError>)
      modifies this`launchManifest, this`disk
      ensures
        var base := if old(launchManifest.revision) == Unset then old(disk).GetOr(EmptyManifest())
                    else old(launchManifest);
        var next := CutoverEdit(base.contents, app, id);
        if base.revision != expected then r == Failure(RevisionConflict) && Now() == old(Now())
        else if id !in old(endpoints) && id !in pool then r == Failure(NotReady) && Now() == old(Now())
        else if next.None? then r == Failure(NotFound) && Now() == old(Now())
        else
          && Now() == Commit(old(Now()), expected, next.value, diskOk)
          && (r.Success? <==> DiskRevision(old(disk)) == expected && diskOk)
          && (r.Success? ==> r.value == CutoverResult(id, Route(next.value, app).previous, Sha(next.value)))
          && (r.Failure? ==> r.error.WriteFailed?)
    {
      var base := if launchManifest.revision == Unset then disk.GetOr(EmptyManifest()) else launchManifest;
      if base.revision != expected {
        return Failure(RevisionConflict);
      }
      if id !in endpoints && id !in pool {
        return Failure(NotReady);
      }
      var c := base.contents;
      if id !in c.instances {
        return Failure(NotFound);
      }
      var route := Route(c, app);
      var was := route.active;
      if was == Some(id) {
        c := c.(routes := c.routes[app := route.(candidate := None)]);
      } else {
        route := RouteBinding(Some(id), None, was);
        c := c.(routes := c.routes[app := route]);
        c := c.(instances := c.instances[id := c.instances[id].(state := Running)]);
        if was.Some? && was.value in c.instances {
          c := c.(instances := c.instances[was.value := c.instances[was.value].(state := Standby)]);
        }
      }
      var next := WithRecomputedRevision(c);
      var written := WriteIfMatches(expected, next, diskOk);
      if written.Failure? {
        return Failure(WriteFailed(written.error));
      }
      launchManifest := next;
      return Success(CutoverResult(id, route.previous, next.revision));
    }

    // ---- Agreement with the protocol, on every path ----

    /** The shell's copies and endpoints are those of a protocol state with the lock free. */
    ghost predicate Shows(s: Host)
      reads this
    {
      s.lock.Free? && Now() == Copies(s.mem, s.disk) && endpoints == s.endpoints
    }

    method RegisterAgrees(s: Host, o: OpId, diskOk: bool) returns (r: Result<Revision, WriteError>)
      requires Shows(s) && o in s.ops && s.ops[o].Start? && s.ops[o].pc.Registering?
      modifies this
      ensures Shows(Mutated(s, o, diskOk))
      ensures match r
              case Success(rev) => Mutated(s, o, diskOk).ops == s.ops[o := s.ops[o].(pc := SpawnChecking(rev))]
              case Failure(_) => Mutated(s, o, diskOk) == End(s, o)
    {
      MutationIsCommit(s, o, diskOk);
      r := RegisterStartCandidate(s.ops[o].app, s.ops[o].id, s.ops[o].specRef, diskOk);
    }

    method DiscardAgrees(s: Host, o: OpId, diskOk: bool)
      requires Shows(s) && o in s.ops && s.ops[o].Start? && s.ops[o].pc.EndpointDropping?
      modifies this
      ensures Shows(Mutated(LocalStep(s, o, true), o, diskOk))
      ensures o !in Mutated(LocalStep(s, o, true), o, diskOk).ops
    {
      MutationIsCommit(LocalStep(s, o, true), o, diskOk);
      DiscardStartCandidate(s.ops[o].app, s.ops[o].id, diskOk);
    }

    method RetireAgrees(s: Host, o: OpId, diskOk: bool)
      requires Shows(s) && o in s.ops && s.ops[o].Start? && s.ops[o].pc.RetireDropping?
      modifies this
      ensures Shows(Mutated(LocalStep(s, o, true), o, diskOk))
      ensures o !in Mutated(LocalStep(s, o, true), o, diskOk).ops
    {
      MutationIsCommit(LocalStep(s, o, true), o, diskOk);
      RetirePrevious(s.ops[o].pc.previous, diskOk);
    }

    method StopAgrees(s: Host, o: OpId, ids: seq<InstanceId>, diskOk: bool) returns (r: Result<(), WriteError>)
      requires Shows(s) && o in s.ops && s.ops[o].StopCommitting? && s.ops[o].ids == set x | x in ids
      modifies this
      ensures Shows(Mutated(s, o, diskOk))
      ensures match r
              case Success(_) => Mutated(s, o, diskOk).ops == s.ops[o := StopKilling(s.ops[o].app, s.ops[o].ids)]
              case Failure(_) => Mutated(s, o, diskOk) == End(s, o)
    {
      MutationIsCommit(s, o, diskOk);
      r := StopRoute(s.ops[o].app, ids, diskOk);
    }

    method CutoverAgrees(s: Host, o: OpId, diskOk: bool) returns (r: Result<CutoverResult, CutoverError>)
      requires Shows(s) && o in s.ops && s.ops[o].Start? && s.ops[o].pc.CuttingOver?
      modifies this
      ensures Shows(Mutated(s, o, diskOk))
      ensures match r
              case Success(cut) =>
                var t := Mutated(s, o, diskOk);
                if cut.previous.Some? && cut.previous.value != s.ops[o].id
                then t.ops == s.ops[o := s.ops[o].(pc := Draining(cut.previous.value))]
                else t.ops == s.ops - {o}
              case Failure(_) => Mutated(s, o, diskOk) == Goto(s, o, AbortStopping)
    {
      MutationIsCommit(s, o, diskOk);
      r := ExecuteCutover(s.ops[o].app, s.ops[o].id, s.ops[o].pc.revision, s.pool, diskOk);
    }
  }

  predicate GoesAhead(s: Host, o: OpId)
    requires o in s.ops && Mutates(s.ops[o])
  {
    Admitted(s, s.ops[o]) && Edited(s.ops[o], BaseManifest(s, s.ops[o]).contents).Some?
  }

  /** Uninterrupted, a mutation is one commit or, when it is refused, none; and the operation goes
      on as installed exactly if the commit was written: the fine-grained protocol refines the
      critical sections above on every path. */
  lemma MutationIsCommit(s: Host, o: OpId, diskOk: bool)
    requires s.lock.Free? && o in s.ops && Mutates(s.ops[o])
    ensures
      var base := BaseManifest(s, s.ops[o]);
      var t := Mutated(s, o, diskOk);
      && t.lock.Free?
      && Copies(t.mem, t.disk)
         == (if GoesAhead(s, o)
             then Commit(Copies(s.mem, s.disk), base.revision, Edited(s.ops[o], base.contents).value, diskOk)
             else Copies(s.mem, s.disk))
      && (if GoesAhead(s, o) && DiskRevision(s.disk) == base.revision && diskOk
          then t == Installed(s.(disk := t.disk), o, t.mem)
          else t == Failed(s, o))
  {
    var a := AcquireStep(s, o);
    if GoesAhead(s, o) {
      assert a.lock.Computed? && a.ops == s.ops;
      var w := WriteStep(a, o, diskOk);
      if w.lock.Written? {
        assert w.ops == s.ops;
      } else {
        assert w == Failed(s, o);
      }
    } else {
      assert a == Failed(s, o);
    }
  }
}
