/** The per-app table of starts in flight, and its agreement with the launch protocol's guard. */
module StartInflight {
  import opened Wrappers
  import opened LaunchManifests
  import opened LaunchProtocol

  datatype StartPhase = Prebuilding | Spawning

  datatype Entry = Entry(appId: AppId, phase: StartPhase, startedAtMs: nat)

  class AppStartInflight {
    var entries: map<AppId, Entry>

    constructor ()
      ensures entries == map[]
    {
      entries := map[];
    }

    /** The apps in flight, each under its own name. */
    ghost predicate Holds(inflight: set<AppId>)
      reads this
    {
      entries.Keys == inflight && forall a :: a in entries ==> entries[a].appId == a
    }

    /** Refused, with the entry already there, exactly while the app is in flight. */
    method TryBegin(app: AppId, phase: StartPhase, now: nat) returns (r: Result<(), Entry>)
      modifies this
      ensures r == if app in old(entries) then Failure(old(entries)[app]) else Success(())
      ensures entries == if app in old(entries) then old(entries) else old(entries)[app := Entry(app, phase, now)]
    {
      if app in entries {
        return Failure(entries[app]);
      }
      entries := entries[app := Entry(app, phase, now)];
      return Success(());
    }

    method SetPhase(app: AppId, phase: StartPhase)
      modifies this
      ensures entries == if app in old(entries) then old(entries)[app := old(entries)[app].(phase := phase)]
                         else old(entries)
    {
      if app in entries {
        entries := entries[app := entries[app].(phase := phase)];
      }
    }

    /** Also what dropping the guard does, on every way out of a start. */
    method Finish(app: AppId)
      modifies this
      ensures entries == old(entries) - {app}
    {
      entries := entries - {app};
    }

    /** A begin on the table is the protocol's begin of a start. */
    method BeginAgrees(s: Host, app: AppId, now: nat) returns (r: Result<(), Entry>)
      requires Holds(s.inflight)
      modifies this
      ensures Holds(BeginStart(s, app).inflight)
      ensures r.Success? <==> BeginStart(s, app) != s
    {
      r := TryBegin(app, Prebuilding, now);
    }

    /** A finish on the table is the protocol's end of a start. */
    method EndAgrees(s: Host, o: OpId)
      requires Holds(s.inflight) && o in s.ops && IsStart(s.ops[o])
      modifies this
      ensures Holds(End(s, o).inflight)
    {
      Finish(s.ops[o].app);
    }
  }
}
