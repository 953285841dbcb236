/** When an accident reports a child that exited while it was pooled, over every run of the
    supervisor pool. */
module ExitAccidents {
  import opened Wrappers
  import opened LaunchManifests
  import opened ChildProcesses

  /** Step `j` of the run puts child `c` into the pool. */
  ghost predicate InsertedAt(steps: seq<Step>, c: ChildId, j: nat) {
    j < |steps| && !Pooled(Exec(EMPTY, steps[..j]), c) && Pooled(Exec(EMPTY, steps[..j + 1]), c)
  }

  /** Step `k` of the run is the child's own exit. */
  ghost predicate ExitedAt(steps: seq<Step>, c: ChildId, k: nat) {
    k < |steps| && steps[k] == Exit(c) && c in Exec(EMPTY, steps[..k]).alive
  }

  lemma Grow(steps: seq<Step>, k: nat)
    requires k < |steps|
    ensures Exec(EMPTY, steps[..k + 1]) == Apply(Exec(EMPTY, steps[..k]), steps[k])
  {
    assert steps[..k + 1][..k] == steps[..k];
  }

  // ---- What never turns back ----

  lemma ExitedStep(s: Machine, step: Step, c: ChildId)
    requires c in s.exited
    ensures c in Apply(s, step).exited
  {
  }

  lemma {:induction false} ExitedForGood(steps: seq<Step>, c: ChildId, i: nat, j: nat)
    requires i <= j <= |steps| && c in Exec(EMPTY, steps[..i]).exited
    ensures c in Exec(EMPTY, steps[..j]).exited && c !in Exec(EMPTY, steps[..j]).alive
  {
    RunKeepsInv(steps[..j]);
    if i < j {
      ExitedForGood(steps, c, i, j - 1);
      Grow(steps, j - 1);
      ExitedStep(Exec(EMPTY, steps[..j - 1]), steps[j - 1], c);
    }
  }

  lemma {:induction false} RemovedForGood(steps: seq<Step>, c: ChildId, i: nat, j: nat)
    requires i <= j <= |steps| && Removed(Exec(EMPTY, steps[..i]), c)
    ensures Removed(Exec(EMPTY, steps[..j]), c)
  {
    if i < j {
      RemovedForGood(steps, c, i, j - 1);
      Grow(steps, j - 1);
      RemovedStays(Exec(EMPTY, steps[..j - 1]), steps[j - 1], c);
    }
  }

  /** A pooled child stays pooled or has been taken out for good. */
  lemma PooledStep(s: Machine, step: Step, c: ChildId)
    requires Inv(s) && Pooled(s, c)
    ensures Pooled(Apply(s, step), c) || Removed(Apply(s, step), c)
  {
    var id :| id in s.pool && s.pool[id].child == c;
    var n := Apply(s, step);
    if id in n.pool {
      NoEntryIsOverwritten(s, step, id);
    } else {
      assert step.Advance?;
      TakingRemoves(s, step.t, step.ok, id);
    }
  }

  lemma {:induction false} PooledOrRemoved(steps: seq<Step>, c: ChildId, i: nat, j: nat)
    requires i <= j <= |steps| && Pooled(Exec(EMPTY, steps[..i]), c)
    ensures Pooled(Exec(EMPTY, steps[..j]), c) || Removed(Exec(EMPTY, steps[..j]), c)
  {
    if i < j {
      PooledOrRemoved(steps, c, i, j - 1);
      var s := Exec(EMPTY, steps[..j - 1]);
      Grow(steps, j - 1);
      RunKeepsInv(steps[..j - 1]);
      if Pooled(s, c) {
        PooledStep(s, steps[j - 1], c);
      } else {
        RemovedStays(s, steps[j - 1], c);
      }
    }
  }

  /** A child is pooled without a gap. */
  lemma PooledBetween(steps: seq<Step>, c: ChildId, i: nat, k: nat, j: nat)
    requires i <= k <= j <= |steps|
    requires Pooled(Exec(EMPTY, steps[..i]), c) && Pooled(Exec(EMPTY, steps[..j]), c)
    ensures Pooled(Exec(EMPTY, steps[..k]), c)
  {
    PooledOrRemoved(steps, c, i, k);
    if Removed(Exec(EMPTY, steps[..k]), c) { RemovedForGood(steps, c, k, j); }
  }

  // ---- Where a child entered and left ----

  lemma ExitIsAStep(s: Machine, step: Step, c: ChildId)
    requires c !in s.exited && c in Apply(s, step).exited
    ensures step == Exit(c) && c in s.alive
  {
  }

  lemma {:induction false} ExitedHasExit(steps: seq<Step>, c: ChildId, n: nat) returns (k: nat)
    requires n <= |steps| && c in Exec(EMPTY, steps[..n]).exited
    ensures k < n && ExitedAt(steps, c, k)
    decreases n
  {
    assert steps[..0] == [];
    if n > 0 {
      Grow(steps, n - 1);
      if c in Exec(EMPTY, steps[..n - 1]).exited {
        k := ExitedHasExit(steps, c, n - 1);
      } else {
        ExitIsAStep(Exec(EMPTY, steps[..n - 1]), steps[n - 1], c);
        k := n - 1;
      }
    }
  }

  lemma {:induction false} PooledWasInserted(steps: seq<Step>, c: ChildId, n: nat) returns (j: nat)
    requires n <= |steps| && Pooled(Exec(EMPTY, steps[..n]), c)
    ensures j < n && InsertedAt(steps, c, j)
    decreases n
  {
    assert steps[..0] == [];
    if n > 0 && Pooled(Exec(EMPTY, steps[..n - 1]), c) {
      j := PooledWasInserted(steps, c, n - 1);
    } else if n > 0 {
      j := n - 1;
    }
  }

  /** An inserting step is a spawn's, whose child is alive or has exited. */
  lemma InsertIsHeld(s: Machine, step: Step, c: ChildId)
    requires Inv(s) && !Pooled(s, c) && Pooled(Apply(s, step), c)
    ensures c in s.alive || c in s.exited
    ensures !step.Exit?
  {
    var n := Apply(s, step);
    var id :| id in n.pool && n.pool[id].child == c;
    assert id !in s.pool || s.pool[id] != n.pool[id];
    NewEntryIsHeld(s, step, id);
  }

  lemma NewEntryIsHeld(s: Machine, step: Step, id: InstanceId)
    requires id in Apply(s, step).pool && (id !in s.pool || s.pool[id] != Apply(s, step).pool[id])
    ensures step.Advance? && step.t in s.tasks && Holds(s.tasks[step.t]) == Some(Apply(s, step).pool[id].child)
  {
  }

  // ---- The result ----

  lemma ExitBeforeInsert(steps: seq<Step>, c: ChildId, j: nat, k: nat)
    requires k < j && InsertedAt(steps, c, j) && ExitedAt(steps, c, k)
    ensures !Pooled(Exec(EMPTY, steps[..k]), c) && c !in Exec(EMPTY, steps[..j]).alive
  {
    Grow(steps, k);
    ExitedForGood(steps, c, k + 1, j);
    if Pooled(Exec(EMPTY, steps[..k]), c) { PooledBetween(steps, c, k, j, j + 1); }
  }

  lemma InsertBeforeExit(steps: seq<Step>, c: ChildId, j: nat, k: nat, m: nat)
    requires j < k < m <= |steps| && InsertedAt(steps, c, j) && ExitedAt(steps, c, k)
    requires Pooled(Exec(EMPTY, steps[..m]), c)
    ensures Pooled(Exec(EMPTY, steps[..k]), c) && c in Exec(EMPTY, steps[..j]).alive
  {
    RunKeepsInv(steps[..j]);
    Grow(steps, j);
    InsertIsHeld(Exec(EMPTY, steps[..j]), steps[j], c);
    PooledBetween(steps, c, j + 1, k, m);
    if c in Exec(EMPTY, steps[..j]).exited { ExitedForGood(steps, c, j, k); }
  }

  lemma ExitIsNoInsert(steps: seq<Step>, c: ChildId, j: nat)
    requires InsertedAt(steps, c, j)
    ensures !ExitedAt(steps, c, j)
  {
    RunKeepsInv(steps[..j]);
    Grow(steps, j);
    InsertIsHeld(Exec(EMPTY, steps[..j]), steps[j], c);
  }

  /** Exactly when an accident that reports an exit keeps to "exited while pooled": wherever its
      child was inserted and wherever it exited, it exited while pooled if and only if it was still
      alive when it was inserted. */
  lemma PooledExitIffAliveAtInsert(steps: seq<Step>, a: Accident, j: nat, k: nat)
    requires a in Exec(EMPTY, steps).accidents && !a.waitError
    requires InsertedAt(steps, a.child, j) && ExitedAt(steps, a.child, k)
    ensures Pooled(Exec(EMPTY, steps[..k]), a.child) <==> a.child in Exec(EMPTY, steps[..j]).alive
  {
    var c := a.child;
    var m := AccidentWasPooled(steps, a);
    ExitIsNoInsert(steps, c, j);
    if m <= k { ExitedForGood(steps, c, m, k); }
    if k < j { ExitBeforeInsert(steps, c, j, k); } else { InsertBeforeExit(steps, c, j, k, m); }
  }

  /** In every run, the child of an accident that reports an exit was inserted and exited by
      itself, so the condition above decides each such accident. */
  lemma AccidentExitedPooledIff(steps: seq<Step>, a: Accident) returns (j: nat, k: nat)
    requires a in Exec(EMPTY, steps).accidents && !a.waitError
    ensures InsertedAt(steps, a.child, j) && ExitedAt(steps, a.child, k)
    ensures Pooled(Exec(EMPTY, steps[..k]), a.child) <==> a.child in Exec(EMPTY, steps[..j]).alive
  {
    var m := AccidentWasPooled(steps, a);
    j := PooledWasInserted(steps, a.child, m);
    k := ExitedHasExit(steps, a.child, m);
    PooledExitIffAliveAtInsert(steps, a, j, k);
  }

  /** The machine once a first spawn has gone through. */
  function FirstPooled(spec: Spec, token: string): Machine {
    Machine(map[spec.instanceId := Managed(0, spec, token)], {0}, {}, {}, map[], 1, 1, [])
  }

  function FirstSpawn(spec: Spec, token: string): seq<Step> {
    [Begin(SpawnChecking(spec, token, Once)), Advance(0, true), Advance(0, true), Advance(0, true)]
  }

  lemma FirstSpawnPools(spec: Spec, token: string)
    ensures Exec(EMPTY, FirstSpawn(spec, token)) == FirstPooled(spec, token)
  {
    var steps := FirstSpawn(spec, token);
    assert steps[..0] == [] && steps[..4] == steps;
    var s1 := Apply(EMPTY, steps[0]);
    var s2 := AdvanceStep(s1, 0, true);
    assert s2.tasks == map[0 := SpawnBooting(spec, token, 0, Once)] && s2.alive == {0};
    var s3 := AdvanceStep(s2, 0, true);
    assert s3.tasks == map[0 := SpawnInserting(spec, token, 0, Once)];
    assert AdvanceStep(s3, 0, true).tasks == map[];
    Grow(steps, 0);
    Grow(steps, 1);
    Grow(steps, 2);
    Grow(steps, 3);
  }

  lemma ExecTwoMore(steps: seq<Step>, a: Step, b: Step)
    ensures Exec(EMPTY, steps + [a, b]) == Apply(Apply(Exec(EMPTY, steps), a), b)
  {
    var all := steps + [a, b];
    assert all[..|steps|] == steps && all[..|steps| + 2] == all;
    Grow(all, |steps|);
    Grow(all, |steps| + 1);
  }

  /** An accident recorded because the wait failed may name a child that is alive and pooled: in the
      run below, a first spawn is followed by a watchdog whose first turn cannot wait. */
  lemma WaitErrorMayNameALiveChild(spec: Spec, token: string)
    ensures
      var s := Exec(EMPTY, FirstSpawn(spec, token) + [Begin(Watching(spec.instanceId, 0)), Poll(1, true)]);
      s.accidents == [Accident(spec.instanceId, 0, true)] && 0 in s.alive && Pooled(s, 0)
  {
    FirstSpawnPools(spec, token);
    ExecTwoMore(FirstSpawn(spec, token), Begin(Watching(spec.instanceId, 0)), Poll(1, true));
    var s := Apply(Apply(FirstPooled(spec, token), Begin(Watching(spec.instanceId, 0))), Poll(1, true));
    assert s.pool[spec.instanceId].child == 0;
  }
}
