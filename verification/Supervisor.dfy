/** The supervisor pool as one caller sees it when nobody interferes: restart with back-off,
    reconciliation with a manifest, and shutdown. */
module Supervisor {
  import opened Wrappers
  import opened LaunchManifests
  import opened ChildProcesses
  import opened Texts

  const RESTART_BACKOFF_BASE: nat := 500
  const RESTART_BACKOFF_MAX: nat := 8000

  function Min(a: nat, b: nat): nat { if a < b then a else b }

  function Pow2(k: nat): nat { if k == 0 then 1 else 2 * Pow2(k - 1) }

  /** The pause after failure number `k`, counted from 0. */
  function Delay(k: nat): nat { Min(RESTART_BACKOFF_BASE * Pow2(k), RESTART_BACKOFF_MAX) }

  function Total(waits: seq<nat>): nat {
    if waits == [] then 0 else Total(waits[..|waits| - 1]) + waits[|waits| - 1]
  }

  /** Doubling with a cap follows the closed form. */
  lemma DelayDoubles(k: nat)
    ensures Delay(0) == RESTART_BACKOFF_BASE
    ensures Delay(k + 1) == Min(2 * Delay(k), RESTART_BACKOFF_MAX)
  {
  }

  lemma {:induction false} Pow2AtLeast16(k: nat)
    requires k >= 4
    ensures Pow2(k) >= 16
  {
    if k == 4 {
      assert Pow2(1) == 2 && Pow2(2) == 4 && Pow2(3) == 8;
    } else {
      Pow2AtLeast16(k - 1);
    }
  }

  /** The pauses are 500, 1000, 2000 and 4000 ms, and 8000 ms from then on. */
  lemma DelaysAre(k: nat)
    ensures Delay(k) == if k == 0 then 500 else if k == 1 then 1000 else if k == 2 then 2000
                        else if k == 3 then 4000 else 8000
  {
    if k >= 4 { Pow2AtLeast16(k); } else { assert Pow2(1) == 2 && Pow2(2) == 4 && Pow2(3) == 8; }
  }

  /** After m >= 4 failures a restart has waited 7500 + 8000 * (m - 4) ms. */
  lemma {:induction false} TotalBackoff(waits: seq<nat>)
    requires forall k :: 0 <= k < |waits| ==> waits[k] == Delay(k)
    requires |waits| >= 4
    ensures Total(waits) == 7500 + 8000 * (|waits| - 4)
    decreases |waits|
  {
    var init := waits[..|waits| - 1];
    if |waits| == 4 {
      assert Pow2(1) == 2 && Pow2(2) == 4 && Pow2(3) == 8;
      assert init[..2] == waits[..2] && init[..2][..1] == waits[..1] && waits[..1][..0] == [];
      assert Total(waits[..1]) == 500;
      assert Total(waits[..2]) == 1500;
      assert Total(init) == 3500;
    } else {
      TotalBackoff(init);
      Pow2AtLeast16(|waits| - 1);
    }
  }

  datatype SpawnError = AlreadyManaged | StartFailed

  datatype RestartError = NotManaged | GaveUp(last: SpawnError)

  /** A row of a reconcile report. */
  datatype Observed = Ready(runtime: Managed) | Failed(instanceId: InstanceId)

  function DesiredRunning(c: Contents): set<InstanceId> {
    set x | x in c.instances && c.instances[x].state == Running
  }

  function RowOf(id: InstanceId, pool: map<InstanceId, Managed>): Observed {
    if id in pool then Ready(pool[id]) else Failed(id)
  }

  /** The report has one row per id, in the given order, and each says how its id stands in `pool`. */
  ghost predicate Accounts(report: seq<Observed>, pool: map<InstanceId, Managed>, ids: seq<InstanceId>) {
    |report| == |ids| && forall i :: 0 <= i < |ids| ==> report[i] == RowOf(ids[i], pool)
  }

  function Rendered(id: InstanceId): string {
    match id
    case Persisted(name) => name
    case Minted(_, base, stampMs, counter) => RenderMinted(base, stampMs, counter)
  }

  /** The app an instance is started for: the first, in key order, whose route is active on it, and
      without one its own id. */
  ghost predicate IsAppOf(c: Contents, id: InstanceId, app: AppId) {
    if exists a :: a in c.routes && c.routes[a].active == Some(id) then
      && app in c.routes && c.routes[app].active == Some(id)
      && forall a :: a in c.routes && c.routes[a].active == Some(id) ==> Leq(app, a)
    else app == Rendered(id)
  }

  /** All of `keys`, each once, in key order. */
  ghost predicate KeyOrder(order: seq<InstanceId>, keys: set<InstanceId>) {
    && |order| == |keys|
    && (forall id :: id in keys <==> id in order)
    && (forall i, j :: 0 <= i < j < |order| ==> order[i] != order[j] && Leq(Rendered(order[i]), Rendered(order[j])))
  }

  /** No id of `todo` is listed, or comes before a listed one. */
  ghost predicate NoneBefore(todo: set<InstanceId>, order: seq<InstanceId>) {
    forall i, x :: 0 <= i < |order| && x in todo ==> order[i] != x && Leq(Rendered(order[i]), Rendered(x))
  }

  ghost predicate IsFirst(id: InstanceId, ids: set<InstanceId>) {
    id in ids && forall x :: x in ids ==> Leq(Rendered(id), Rendered(x))
  }

  lemma KeyOrderGrows(order: seq<InstanceId>, done: set<InstanceId>, todo: set<InstanceId>, id: InstanceId)
    requires KeyOrder(order, done) && done !! todo && NoneBefore(todo, order) && IsFirst(id, todo)
    ensures KeyOrder(order + [id], done + {id}) && NoneBefore(todo - {id}, order + [id])
  {
    assert id !in done && |done + {id}| == |done| + 1;
  }

  lemma TodoShrinks(order: seq<InstanceId>, keys: set<InstanceId>, todo: set<InstanceId>, id: InstanceId)
    requires todo <= keys && KeyOrder(order, keys - todo) && NoneBefore(todo, order) && IsFirst(id, todo)
    ensures KeyOrder(order + [id], keys - (todo - {id})) && NoneBefore(todo - {id}, order + [id])
  {
    KeyOrderGrows(order, keys - todo, todo, id);
    assert keys - (todo - {id}) == keys - todo + {id};
  }

  ghost predicate DistinctKeys(keys: set<InstanceId>) {
    forall x, y :: x in keys && y in keys && Rendered(x) == Rendered(y) ==> x == y
  }

  /** Where ids render to distinct keys there is only one such order. */
  lemma {:induction false} KeyOrderIsUnique(a: seq<InstanceId>, b: seq<InstanceId>, keys: set<InstanceId>, k: nat)
    requires KeyOrder(a, keys) && KeyOrder(b, keys) && k <= |keys|
    requires DistinctKeys(keys)
    ensures a[..k] == b[..k]
  {
    if k > 0 {
      KeyOrderIsUnique(a, b, keys, k - 1);
      NextAgrees(a, b, keys, k - 1);
      assert a[..k] == a[..k - 1] + [a[k - 1]] && b[..k] == b[..k - 1] + [b[k - 1]];
    }
  }

  lemma NextAgrees(a: seq<InstanceId>, b: seq<InstanceId>, keys: set<InstanceId>, k: nat)
    requires KeyOrder(a, keys) && KeyOrder(b, keys) && k < |keys| && a[..k] == b[..k] && DistinctKeys(keys)
    ensures a[k] == b[k]
  {
    FirstOfRest(a, b, keys, k);
    FirstOfRest(b, a, keys, k);
    LeqTotal(Rendered(a[k]), Rendered(b[k]));
    assert a[k] in a && b[k] in b;
    assert a[k] in keys && b[k] in keys;
  }

  lemma FirstOfRest(a: seq<InstanceId>, b: seq<InstanceId>, keys: set<InstanceId>, k: nat)
    requires KeyOrder(a, keys) && KeyOrder(b, keys) && k < |keys| && a[..k] == b[..k]
    ensures Leq(Rendered(a[k]), Rendered(b[k]))
  {
    assert b[k] in b && b[k] in a;
    var i :| 0 <= i < |a| && a[i] == b[k];
    forall j | 0 <= j < k ensures a[j] == b[j] { assert a[..k][j] == b[..k][j]; }
    assert i >= k;
    if i == k { LeqTotal(Rendered(a[k]), Rendered(b[k])); }
  }

  lemma FirstExists(ids: set<InstanceId>) returns (id: InstanceId)
    requires ids != {}
    ensures IsFirst(id, ids)
  {
    var some :| some in ids;
    var names := set x | x in ids :: Rendered(x);
    assert Rendered(some) in names;
    var least := LeastExists(names);
    id :| id in ids && Rendered(id) == least;
  }

  /** Once the ids of `done` are handled, the pool holds exactly the desired ids that were in it
      or, if handled, whose child boots; the former are the same processes, the latter newer than
      `mark` and started for the app of their id. */
  ghost predicate Survives(was: map<InstanceId, Managed>, now: map<InstanceId, Managed>, c: Contents,
                           done: seq<InstanceId>, bootable: set<InstanceId>, mark: ChildId)
  {
    && (forall id :: id in now <==>
          || (id in was && id in c.instances && c.instances[id].state == Running)
          || (id in done && id in bootable))
    && (forall id :: id in now ==> if id in was then now[id] == was[id] else IsNew(c, id, now[id], mark))
  }

  ghost predicate IsNew(c: Contents, id: InstanceId, m: Managed, mark: ChildId) {
    m.child >= mark && m.spec.instanceId == id && IsAppOf(c, id, m.spec.appId)
  }

  ghost predicate SameElsewhere(before: map<InstanceId, Managed>, now: map<InstanceId, Managed>, id: InstanceId) {
    forall x :: x != id ==> (x in now <==> x in before) && (x in now ==> now[x] == before[x])
  }

  /** Handling one more id leaves the earlier rows true. */
  lemma AccountsGrow(report: seq<Observed>, before: map<InstanceId, Managed>, now: map<InstanceId, Managed>,
                     done: seq<InstanceId>, id: InstanceId)
    requires Accounts(report, before, done) && id !in done && SameElsewhere(before, now, id)
    ensures Accounts(report + [RowOf(id, now)], now, done + [id])
  {
    forall i | 0 <= i < |done| ensures RowOf(done[i], now) == RowOf(done[i], before) { assert done[i] in done; }
  }

  lemma SurvivesStep(was: map<InstanceId, Managed>, before: map<InstanceId, Managed>, now: map<InstanceId, Managed>,
                     c: Contents, done: seq<InstanceId>, bootable: set<InstanceId>, mark: ChildId, id: InstanceId)
    requires Survives(was, before, c, done, bootable, mark)
    requires SameElsewhere(before, now, id)
    requires id in now <==> id in before || id in bootable
    requires id in now ==> if id in before then now[id] == before[id] else IsNew(c, id, now[id], mark)
    requires id in was ==> id in before
    ensures Survives(was, now, c, done + [id], bootable, mark)
  {
  }

  lemma ReadyIsPooled(report: seq<Observed>, pool: map<InstanceId, Managed>,
                      order: seq<InstanceId>, keys: set<InstanceId>)
    requires KeyOrder(order, keys) && Accounts(report, pool, order)
    ensures (forall row :: row in report ==> row.Ready?) ==> keys <= pool.Keys
  {
    if forall row :: row in report ==> row.Ready? {
      forall id | id in keys ensures id in pool {
        var i :| 0 <= i < |order| && order[i] == id;
        assert report[i] in report;
      }
    }
  }

  /** Two reports on the same pool and keys have the same rows, and the same order if the keys are
      distinct. */
  lemma SameRows(first: seq<Observed>, second: seq<Observed>, pool: map<InstanceId, Managed>,
                 a: seq<InstanceId>, b: seq<InstanceId>, keys: set<InstanceId>)
    requires KeyOrder(a, keys) && KeyOrder(b, keys) && Accounts(first, pool, a) && Accounts(second, pool, b)
    ensures |second| == |first| && forall row :: row in second ==> row in first
    ensures DistinctKeys(keys) ==> second == first
  {
    forall row | row in second ensures row in first {
      var i :| 0 <= i < |second| && second[i] == row;
      assert b[i] in b && b[i] in a;
      var j :| 0 <= j < |a| && a[j] == b[i];
      assert first[j] == row;
    }
    if DistinctKeys(keys) {
      KeyOrderIsUnique(a, b, keys, |keys|);
      assert a[..|keys|] == a && b[..|keys|] == b;
    }
  }

  /** What follows for two reconciles of which the second finds a settled pool as it is. */
  lemma SettledReports(first: seq<Observed>, settled: map<InstanceId, Managed>, a: seq<InstanceId>,
                       second: seq<Observed>, now: map<InstanceId, Managed>, b: seq<InstanceId>, keys: set<InstanceId>)
    requires KeyOrder(a, keys) && KeyOrder(b, keys) && Accounts(first, settled, a) && Accounts(second, now, b)
    requires settled.Keys <= keys && (settled.Keys == keys ==> now == settled)
    requires forall row :: row in first ==> row.Ready?
    ensures settled.Keys == keys && now == settled
    ensures |second| == |first| && forall row :: row in second ==> row.Ready? && row in first
    ensures DistinctKeys(keys) ==> second == first
  {
    assert settled.Keys == keys by { ReadyIsPooled(first, settled, a, keys); }
    SameRows(first, second, settled, a, b, keys);
    forall row | row in second ensures row.Ready? { assert row in first; }
  }

  class AppRuntimeSupervisor {
    var runtimes: map<InstanceId, Managed>
    var nextChild: ChildId

    constructor ()
      ensures Valid() && runtimes == map[] && nextChild == 0
    {
      runtimes, nextChild := map[], 0;
    }

    /** Entries are under their own id and hold distinct children that were really started. */
    ghost predicate Valid()
      reads this
    {
      && (forall id :: id in runtimes ==> runtimes[id].spec.instanceId == id && runtimes[id].child < nextChild)
      && (forall i, j :: i in runtimes && j in runtimes && i != j ==> runtimes[i].child != runtimes[j].child)
    }

    /** `spawn_managed_runtime`: the environment decides whether the child becomes healthy. */
    method StartChild(spec: Spec, token: string, healthy: bool) returns (r: Option<Managed>)
      modifies this`nextChild
      ensures r == if healthy then Some(Managed(old(nextChild), spec, token)) else None
      ensures nextChild == old(nextChild) + if healthy then 1 else 0
    {
      if !healthy {
        return None;
      }
      r := Some(Managed(nextChild, spec, token));
      nextChild := nextChild + 1;
    }

    method SpawnInto(spec: Spec, token: string, healthy: bool) returns (r: Result<Managed, SpawnError>)
      requires Valid()
      modifies this
      ensures Valid()
      ensures r == if spec.instanceId in old(runtimes) then Failure(AlreadyManaged)
                   else if healthy then Success(Managed(old(nextChild), spec, token))
                   else Failure(StartFailed)
      ensures runtimes == if r.Success? then old(runtimes)[spec.instanceId := r.value] else old(runtimes)
      ensures nextChild == old(nextChild) + if r.Success? then 1 else 0
    {
      if spec.instanceId in runtimes {
        return Failure(AlreadyManaged);
      }
      var started := StartChild(spec, token, healthy);
      if started.None? {
        return Failure(StartFailed);
      }
      runtimes := runtimes[spec.instanceId := started.value];
      return Success(started.value);
    }

    method StopFrom(id: InstanceId)
      requires Valid()
      modifies this`runtimes
      ensures Valid() && runtimes == old(runtimes) - {id}
    {
      runtimes := runtimes - {id};
    }

    /** Restart with back-off. `healthy` says which attempt, counted from 0, starts a healthy child;
        `waits` is the sequence of pauses taken, in milliseconds. */
    method RestartFrom(id: InstanceId, maxAttempts: nat, healthy: nat -> bool)
      returns (r: Result<Managed, RestartError>, waits: seq<nat>)
      requires Valid()
      modifies this
      ensures Valid()
      ensures r == Failure(NotManaged) <==> id !in old(runtimes)
      ensures r == Failure(NotManaged) ==> runtimes == old(runtimes) && waits == []
      ensures forall k :: 0 <= k < |waits| ==> waits[k] == Delay(k) && !healthy(k)
      ensures r.Success? ==>
                && id in old(runtimes)
                && r.value == Managed(old(nextChild), old(runtimes)[id].spec, old(runtimes)[id].token)
                && runtimes == old(runtimes)[id := r.value]
                && (|waits| == 0 || |waits| < maxAttempts) && healthy(|waits|)
      ensures r.Failure? && r != Failure(NotManaged) ==>
                && r == Failure(GaveUp(StartFailed)) && runtimes == old(runtimes) - {id}
                && |waits| == if maxAttempts == 0 then 1 else maxAttempts
    {
      waits := [];
      if id !in runtimes {
        return Failure(NotManaged), [];
      }
      var spec, token := runtimes[id].spec, runtimes[id].token;
      StopFrom(id);
      var delay := RESTART_BACKOFF_BASE;
      DelayDoubles(0);
      r := Failure(GaveUp(AlreadyManaged));
      for attempt := 0 to Max1(maxAttempts)
        invariant Valid() && runtimes == old(runtimes) - {id} && nextChild == old(nextChild)
        invariant |waits| == attempt && delay == Delay(attempt)
        invariant forall k :: 0 <= k < |waits| ==> waits[k] == Delay(k) && !healthy(k)
        invariant attempt > 0 ==> r == Failure(GaveUp(StartFailed))
      {
        var spawned := SpawnInto(spec, token, healthy(attempt));
        if spawned.Success? {
          return Success(spawned.value), waits;
        }
        assert spawned.error != AlreadyManaged;
        r := Failure(GaveUp(spawned.error));
        waits := waits + [delay];
        DelayDoubles(attempt);
        delay := Min(delay * 2, RESTART_BACKOFF_MAX);
      }
    }

    method ShutdownAll()
      requires Valid()
      modifies this`runtimes
      ensures Valid() && runtimes == map[]
    {
      var ids := runtimes.Keys;
      while ids != {}
        invariant Valid() && runtimes.Keys == ids
      {
        var id :| id in ids;
        StopFrom(id);
        ids := ids - {id};
      }
    }

    /** The search through the routes, in key order. */
    method AppFor(c: Contents, id: InstanceId) returns (app: AppId)
      ensures IsAppOf(c, id, app)
    {
      var todo := c.routes.Keys;
      while todo != {}
        invariant todo <= c.routes.Keys
        invariant forall a :: a in c.routes && a !in todo ==> c.routes[a].active != Some(id)
      {
        ghost var least := LeastExists(todo);
        var a :| a in todo && forall x | x in todo :: Leq(a, x);
        if c.routes[a].active == Some(id) {
          return a;
        }
        todo := todo - {a};
      }
      return Rendered(id);
    }

    /** The keys in the order in which a `BTreeMap` walks them. */
    method InKeyOrder(keys: set<InstanceId>) returns (order: seq<InstanceId>)
      ensures KeyOrder(order, keys)
    {
      order := [];
      var todo := keys;
      while todo != {}
        invariant todo <= keys && KeyOrder(order, keys - todo) && NoneBefore(todo, order)
      {
        ghost var first := FirstExists(todo);
        var id :| id in todo && forall x | x in todo :: Leq(Rendered(id), Rendered(x));
        TodoShrinks(order, keys, todo, id);
        order := order + [id];
        todo := todo - {id};
      }
      assert keys - todo == keys;
    }

    /** Stop what is no longer desired, keep what runs, start what is missing, and report every
        desired instance once, in key order. `bootable` are the ids whose child would become
        healthy. */
    method Reconcile(c: Contents, bootable: set<InstanceId>) returns (report: seq<Observed>, order: seq<InstanceId>)
      requires Valid()
      modifies this
      ensures Valid()
      ensures KeyOrder(order, DesiredRunning(c))
      ensures forall id :: id in order <==> id in c.instances && c.instances[id].state == Running
      ensures forall id :: id in runtimes <==>
                && id in c.instances && c.instances[id].state == Running
                && (id in old(runtimes) || id in bootable)
      ensures Survives(old(runtimes), runtimes, c, order, bootable, old(nextChild))
      ensures Accounts(report, runtimes, order)
      ensures old(runtimes).Keys == DesiredRunning(c) ==> runtimes == old(runtimes) && nextChild == old(nextChild)
    {
      order := InKeyOrder(DesiredRunning(c));
      ghost var was, mark := runtimes, nextChild;
      StopUndesired(c);
      assert was.Keys == DesiredRunning(c) ==> runtimes == was;
      report := StartMissing(c, order, bootable, was, mark);
    }

    method StartMissing(c: Contents, order: seq<InstanceId>, bootable: set<InstanceId>,
                        ghost was: map<InstanceId, Managed>, ghost mark: ChildId)
      returns (report: seq<Observed>)
      requires Valid() && mark <= nextChild && KeyOrder(order, DesiredRunning(c))
      requires Survives(was, runtimes, c, [], bootable, mark)
      modifies this
      ensures Valid()
      ensures Survives(was, runtimes, c, order, bootable, mark)
      ensures Accounts(report, runtimes, order)
      ensures old(runtimes).Keys == DesiredRunning(c) ==> runtimes == old(runtimes) && nextChild == old(nextChild)
    {
      report := [];
      for k := 0 to |order|
        invariant Valid() && mark <= nextChild
        invariant Survives(was, runtimes, c, order[..k], bootable, mark)
        invariant Accounts(report, runtimes, order[..k])
        invariant old(runtimes).Keys == DesiredRunning(c) ==> runtimes == old(runtimes) && nextChild == old(nextChild)
      {
        var row := ReconcileOne(c, order, k, bootable, report, was, mark);
        report := report + [row];
      }
      assert order[..|order|] == order;
    }

    /** One turn of the reconcile loop. */
    method ReconcileOne(c: Contents, order: seq<InstanceId>, k: nat, bootable: set<InstanceId>,
                        ghost report: seq<Observed>, ghost was: map<InstanceId, Managed>, ghost mark: ChildId)
      returns (row: Observed)
      requires Valid() && mark <= nextChild && k < |order| && KeyOrder(order, DesiredRunning(c))
      requires Survives(was, runtimes, c, order[..k], bootable, mark)
      requires Accounts(report, runtimes, order[..k])
      modifies this
      ensures Valid() && mark <= nextChild
      ensures Survives(was, runtimes, c, order[..k + 1], bootable, mark)
      ensures Accounts(report + [row], runtimes, order[..k + 1])
      ensures order[k] in old(runtimes) ==> runtimes == old(runtimes) && nextChild == old(nextChild)
    {
      ghost var before, id := runtimes, order[k];
      row := EnsureRunning(c, order[k], order[k] in bootable);
      assert order[..k + 1] == order[..k] + [id];
      assert id in order && id in DesiredRunning(c);
      AccountsGrow(report, before, runtimes, order[..k], id);
      SurvivesStep(was, before, runtimes, c, order[..k], bootable, mark, id);
    }

    /** Keep an instance that runs, else spawn it; either way say how it stands. */
    method EnsureRunning(c: Contents, id: InstanceId, healthy: bool) returns (row: Observed)
      requires Valid()
      modifies this
      ensures Valid() && nextChild >= old(nextChild)
      ensures row == RowOf(id, runtimes)
      ensures id in old(runtimes) ==> runtimes == old(runtimes) && nextChild == old(nextChild)
      ensures id !in old(runtimes) && id in runtimes ==> IsNew(c, id, runtimes[id], old(nextChild))
      ensures id in runtimes <==> id in old(runtimes) || healthy
      ensures SameElsewhere(old(runtimes), runtimes, id)
    {
      if id in runtimes {
        return Ready(runtimes[id]);
      }
      var app := AppFor(c, id);
      var token: string := *;
      var spawned := SpawnInto(Spec(id, app), token, healthy);
      row := if spawned.Success? then Ready(spawned.value) else Failed(id);
    }

    method StopUndesired(c: Contents)
      requires Valid()
      modifies this`runtimes
      ensures Valid()
      ensures forall id :: id in runtimes <==> id in old(runtimes) && id in DesiredRunning(c)
      ensures forall id :: id in runtimes ==> runtimes[id] == old(runtimes)[id]
    {
      var ids, desired := runtimes.Keys, DesiredRunning(c);
      while ids != {}
        invariant Valid() && ids <= old(runtimes).Keys
        invariant forall id :: id in runtimes <==> id in old(runtimes) && (id in ids || id in desired)
        invariant forall id :: id in runtimes ==> runtimes[id] == old(runtimes)[id]
      {
        var id :| id in ids;
        if id !in desired {
          StopFrom(id);
        }
        ids := ids - {id};
      }
    }

    /** After a reconcile without failures a second one finds nothing to do, and reports the same. */
    method ReconcileTwice(c: Contents, bootable: set<InstanceId>, again: set<InstanceId>)
      returns (first: seq<Observed>, settled: map<InstanceId, Managed>, second: seq<Observed>)
      requires Valid()
      modifies this
      ensures Valid()
      ensures (forall row :: row in first ==> row.Ready?) ==>
                && (forall id :: id in settled <==> id in c.instances && c.instances[id].state == Running)
                && runtimes == settled
                && |second| == |first| && (forall row :: row in second ==> row.Ready? && row in first)
                && (DistinctKeys(DesiredRunning(c)) ==> second == first)
    {
      var order, order' := [], [];
      first, order := Reconcile(c, bootable);
      settled := runtimes;
      assert settled.Keys <= DesiredRunning(c);
      second, order' := Reconcile(c, again);
      if forall row | row in first :: row.Ready? {
        SettledReports(first, settled, order, second, runtimes, order', DesiredRunning(c));
      }
    }
  }
}
