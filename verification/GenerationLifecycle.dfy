/** Workspace generations: which one is active, and the all-or-nothing switch of every app's
    `env/current` pointer with its rollback. */
module GenerationLifecycle {
  import opened Wrappers

  type AppId = string
  type Generation = string

  /** `env/current` of one app: missing, pointing at a generation, or present but unresolvable. */
  datatype Pointer = Absent | At(generation: Generation) | Broken

  datatype Links = Links(candidate: Option<Generation>, previous: Option<Generation>, activeToolchain: Option<string>)

  const DEFAULT_LINKS := Links(None, None, None)

  /** What `current_generations` reads from a pointer. */
  function Resolved(p: Pointer): Option<Generation> {
    match p
    case At(g) => Some(g)
    case _ => None
  }

  /** What is left of a pointer once it was captured and put back. */
  function PutBack(p: Pointer): Pointer {
    match p
    case Broken => Absent
    case _ => p
  }

  function PointerOf(current: map<AppId, Pointer>, app: AppId): Pointer {
    if app in current then current[app] else Absent
  }

  function Captured(current: map<AppId, Pointer>, apps: seq<AppId>): map<AppId, Option<Generation>> {
    map app | app in apps :: Resolved(PointerOf(current, app))
  }

  // ---- The active generation ----

  /** `common_generation` over the values of a map, in key order. */
  function CommonGeneration(values: seq<Option<Generation>>): Option<Generation> {
    if values != [] && values[0].Some? && forall v | v in values[1..] :: v == values[0] then values[0] else None
  }

  function Values(current: map<AppId, Option<Generation>>, apps: seq<AppId>): (r: seq<Option<Generation>>)
    requires forall a :: a in apps ==> a in current
  {
    seq(|apps|, i requires 0 <= i < |apps| => current[apps[i]])
  }

  /** The `active` flag of a generation's row: every app points at it. */
  predicate RowActive(apps: seq<AppId>, current: map<AppId, Option<Generation>>, generation: Generation) {
    apps != [] && forall a | a in apps :: a in current && current[a] == Some(generation)
  }

  /** The `active` field of the view: the first row whose flag is set. */
  function ViewActive(apps: seq<AppId>, current: map<AppId, Option<Generation>>,
                      rows: seq<Generation>): Option<Generation> {
    if rows == [] then None
    else if RowActive(apps, current, rows[0]) then Some(rows[0])
    else ViewActive(apps, current, rows[1..])
  }

  /** At most one generation is active: two active rows name the same generation. */
  lemma AtMostOneActive(apps: seq<AppId>, current: map<AppId, Option<Generation>>, g: Generation, h: Generation)
    requires RowActive(apps, current, g) && RowActive(apps, current, h)
    ensures g == h
  {
    assert apps[0] in apps;
  }

  lemma RowActiveIffCommon(apps: seq<AppId>, current: map<AppId, Option<Generation>>, g: Generation)
    requires forall a :: a in apps ==> a in current
    ensures RowActive(apps, current, g) <==> CommonGeneration(Values(current, apps)) == Some(g)
  {
    var values := Values(current, apps);
    if CommonGeneration(values) == Some(g) {
      forall a | a in apps ensures current[a] == Some(g) {
        var i :| 0 <= i < |apps| && apps[i] == a;
        assert values[i] == current[a];
        if i > 0 { assert values[1..][i - 1] == values[i]; assert values[i] in values[1..]; }
      }
    }
    if RowActive(apps, current, g) {
      assert values[0] == current[apps[0]];
      forall v | v in values[1..] ensures v == values[0] {
        var i :| 0 <= i < |values[1..]| && values[1..][i] == v;
        assert values[i + 1] == current[apps[i + 1]];
      }
    }
  }

  lemma {:induction false} ViewActiveIsARow(apps: seq<AppId>, current: map<AppId, Option<Generation>>,
                                          rows: seq<Generation>)
    ensures var r := ViewActive(apps, current, rows);
            if r.Some? then r.value in rows && RowActive(apps, current, r.value)
            else forall g :: g in rows ==> !RowActive(apps, current, g)
  {
    if rows != [] && !RowActive(apps, current, rows[0]) {
      ViewActiveIsARow(apps, current, rows[1..]);
      forall g | g in rows ensures g == rows[0] || g in rows[1..] {
        var i :| 0 <= i < |rows| && rows[i] == g;
        if i > 0 { assert rows[1..][i - 1] == g; }
      }
    }
  }

  /** The view's active generation is the common generation of the pointers, in whatever order the
      rows come, exactly when there is no common generation or it is among the rows. */
  lemma ViewActiveIsCommon(apps: seq<AppId>, current: map<AppId, Option<Generation>>, rows: seq<Generation>)
    requires forall a :: a in apps ==> a in current
    ensures
      var common := CommonGeneration(Values(current, apps));
      ViewActive(apps, current, rows) == common <==> common.None? || common.value in rows
  {
    var common := CommonGeneration(Values(current, apps));
    ViewActiveIsARow(apps, current, rows);
    var r := ViewActive(apps, current, rows);
    if r.Some? { RowActiveIffCommon(apps, current, r.value); }
    if common.Some? { RowActiveIffCommon(apps, current, common.value); }
  }

  // ---- Switching and restoring ----

  datatype Outcome =
    | Rejected          // refused before anything was touched
    | Activated
    | Undone            // failed, and everything was put back
    | UndoneButStale    // put back, but refreshing the old runtime failed
    | UndoFailed        // failed, and putting back failed too

  /** The links a successful activation writes. */
  function NewLinks(was: Links, before: Option<Generation>, target: Generation, toolchain: Option<string>): Links {
    Links(if was.candidate == Some(target) then None else was.candidate,
          if before == Some(target) then None else before,
          toolchain)
  }

  /** What one `attach_build_generation` does; a failed one may already have removed the link. */
  datatype AttachResult = Attached | Untouched | Unlinked

  /** What the file system and the runtime refresh will do, attach and remove by position. */
  datatype Env = Env(
    attach: nat -> AttachResult,
    refresh: bool,
    writeLinks: bool,
    reattach: nat -> AttachResult,
    remove: nat -> bool,
    rewriteLinks: bool,
    refreshOld: bool)

  ghost predicate AllAttach(attach: nat -> AttachResult, n: nat) {
    forall k: nat :: k < n ==> attach(k).Attached?
  }

  /** The pointers after one attach. */
  function AttachedBy(current: map<AppId, Pointer>, app: AppId, generation: Generation, result: AttachResult)
    : map<AppId, Pointer>
  {
    match result
    case Attached => current[app := At(generation)]
    case Untouched => current
    case Unlinked => current[app := Absent]
  }

  /** The pointers after the first `n` turns of a switch that stops at its first failure. */
  function Switched(current: map<AppId, Pointer>, apps: seq<AppId>, generation: Generation,
                    attach: nat -> AttachResult, n: nat): map<AppId, Pointer>
    requires n <= |apps|
  {
    if n == 0 then current
    else
      var before := Switched(current, apps, generation, attach, n - 1);
      if forall k: nat | k < n - 1 :: attach(k).Attached?
      then AttachedBy(before, apps[n - 1], generation, attach(n - 1))
      else before
  }

  /** Putting app number `k` back works: a captured generation attaches again, and a pointer that
      was missing is missing still, was removed already, or can be removed. */
  ghost predicate PutsBack(env: Env, apps: seq<AppId>, captured: map<AppId, Option<Generation>>,
                           current: map<AppId, Pointer>, k: nat)
    requires k < |apps|
  {
    if apps[k] in captured && captured[apps[k]].Some? then env.reattach(k).Attached?
    else env.remove(k) || PointerOf(current, apps[k]) == Absent || apps[k] in apps[..k]
  }

  ghost predicate RestoreWorks(env: Env, apps: seq<AppId>, captured: map<AppId, Option<Generation>>,
                               current: map<AppId, Pointer>)
  {
    env.rewriteLinks && forall k: nat :: k < |apps| ==> PutsBack(env, apps, captured, current, k)
  }

  /** Nothing more is attached once an attach has failed. */
  lemma {:induction false} SwitchStops(current: map<AppId, Pointer>, apps: seq<AppId>, generation: Generation,
                                       attach: nat -> AttachResult, m: nat, n: nat)
    requires 0 < m <= n <= |apps| && !attach(m - 1).Attached?
    ensures Switched(current, apps, generation, attach, n) == Switched(current, apps, generation, attach, m)
  {
    if m < n { SwitchStops(current, apps, generation, attach, m, n - 1); }
  }

  lemma {:induction false} SwitchedPointers(current: map<AppId, Pointer>, apps: seq<AppId>, generation: Generation,
                                            attach: nat -> AttachResult, n: nat)
    requires n <= |apps|
    ensures var now := Switched(current, apps, generation, attach, n);
            && (forall a :: a !in apps[..n] ==> PointerOf(now, a) == PointerOf(current, a))
            && (AllAttach(attach, n) ==> forall a :: a in apps[..n] ==> PointerOf(now, a) == At(generation))
  {
    if n > 0 {
      SwitchedPointers(current, apps, generation, attach, n - 1);
      assert apps[..n] == apps[..n - 1] + [apps[n - 1]];
    }
  }

  /** A switch that fails at app `k` leaves the apps before it at the target and those after it
      untouched. */
  lemma FailedSwitch(current: map<AppId, Pointer>, apps: seq<AppId>, generation: Generation,
                     attach: nat -> AttachResult, k: nat)
    requires k < |apps| && AllAttach(attach, k) && !attach(k).Attached?
    ensures var now := Switched(current, apps, generation, attach, |apps|);
            && now == Switched(current, apps, generation, attach, k + 1)
            && (forall a :: a in apps[..k] && a != apps[k] ==> PointerOf(now, a) == At(generation))
            && (forall a :: a !in apps[..k + 1] ==> PointerOf(now, a) == PointerOf(current, a))
  {
    SwitchStops(current, apps, generation, attach, k + 1, |apps|);
    SwitchedPointers(current, apps, generation, attach, k);
    SwitchedPointers(current, apps, generation, attach, k + 1);
  }

  class Workspace {
    var current: map<AppId, Pointer>
    var links: Option<Links>

    constructor (current: map<AppId, Pointer>, links: Option<Links>)
      ensures this.current == current && this.links == links
    {
      this.current, this.links := current, links;
    }

    method Attach(app: AppId, generation: Generation, result: AttachResult) returns (ok: bool)
      modifies this`current
      ensures ok <==> result.Attached?
      ensures current == AttachedBy(old(current), app, generation, result)
    {
      ok := result.Attached?;
      match result
      case Attached => current := current[app := At(generation)];
      case Untouched =>
      case Unlinked => current := current[app := Absent];
    }

    method Remove(app: AppId, works: bool) returns (ok: bool)
      modifies this`current
      ensures ok <==> works || PointerOf(old(current), app) == Absent
      ensures ok ==> PointerOf(current, app) == Absent
      ensures !ok ==> current == old(current)
      ensures forall a :: a != app ==> PointerOf(current, a) == PointerOf(old(current), a)
    {
      ok := true;
      if PointerOf(current, app) != Absent {
        ok := works;
        if works {
          current := current[app := Absent];
        }
      }
    }

    method WriteLinks(next: Links, works: bool) returns (ok: bool)
      modifies this`links
      ensures ok == works && links == if works then Some(next) else old(links)
    {
      if works {
        links := Some(next);
      }
      ok := works;
    }

    /** Point the apps at `generation` one after the other, up to the first failure. */
    method SwitchPointers(apps: seq<AppId>, generation: Generation, attach: nat -> AttachResult) returns (ok: bool)
      modifies this`current
      ensures ok <==> AllAttach(attach, |apps|)
      ensures current == Switched(old(current), apps, generation, attach, |apps|)
      ensures ok ==> forall a :: a in apps ==> PointerOf(current, a) == At(generation)
      ensures forall a :: a !in apps ==> PointerOf(current, a) == PointerOf(old(current), a)
      ensures !ok ==> exists k ::
        && 0 <= k < |apps|
        && (forall a :: a in apps[..k] && a != apps[k] ==> PointerOf(current, a) == At(generation))
        && (forall a :: a !in apps[..k + 1] ==> PointerOf(current, a) == PointerOf(old(current), a))
    {
      for index := 0 to |apps|
        invariant AllAttach(attach, index)
        invariant current == Switched(old(current), apps, generation, attach, index)
      {
        var attached := Attach(apps[index], generation, attach(index));
        if !attached {
          FailedSwitch(old(current), apps, generation, attach, index);
          return false;
        }
      }
      SwitchedPointers(old(current), apps, generation, attach, |apps|);
      assert apps[..|apps|] == apps;
      return true;
    }

    /** Put every app's pointer and the links back as captured. */
    method RestorePointers(apps: seq<AppId>, captured: map<AppId, Option<Generation>>, oldLinks: Links, env: Env)
      returns (ok: bool)
      modifies this
      ensures ok <==> RestoreWorks(env, apps, captured, old(current))
      ensures ok ==> links == Some(oldLinks)
      ensures ok ==> forall a :: a in apps ==>
                PointerOf(current, a) == if a in captured && captured[a].Some? then At(captured[a].value) else Absent
      ensures forall a :: a !in apps ==> PointerOf(current, a) == PointerOf(old(current), a)
    {
      for index := 0 to |apps|
        invariant forall a :: a in apps[..index] ==>
                    PointerOf(current, a) == if a in captured && captured[a].Some? then
                      At(captured[a].value) else Absent
        invariant forall a :: a !in apps[..index] ==> PointerOf(current, a) == PointerOf(old(current), a)
        invariant forall k: nat :: k < index ==> PutsBack(env, apps, captured, old(current), k)
      {
        var app := apps[index];
        assert apps[..index + 1] == apps[..index] + [app];
        assert PutsBack(env, apps, captured, old(current), index) <==>
               if app in captured && captured[app].Some? then env.reattach(index).Attached?
               else env.remove(index) || PointerOf(current, app) == Absent;
        if app in captured && captured[app].Some? {
          ok := Attach(app, captured[app].value, env.reattach(index));
        } else {
          ok := Remove(app, env.remove(index));
        }
        if !ok {
          return;
        }
      }
      ok := WriteLinks(oldLinks, env.rewriteLinks);
    }

    /** The roll-back branches: restore, then refresh the old runtime if the new one was begun. */
    method RollBack(apps: seq<AppId>, captured: map<AppId, Option<Generation>>, oldLinks: Links, env: Env, begun: bool,
                    ghost was: map<AppId, Pointer>)
      returns (r: Outcome)
      requires captured == Captured(was, apps)
      modifies this
      ensures r in {Undone, UndoneButStale, UndoFailed}
      ensures r.UndoFailed? <==> !RestoreWorks(env, apps, captured, old(current))
      ensures r.UndoneButStale? <==> !r.UndoFailed? && begun && !env.refreshOld
      ensures forall a :: a !in apps ==> PointerOf(current, a) == PointerOf(old(current), a)
      ensures !r.UndoFailed? ==>
                && links == Some(oldLinks)
                && (forall a :: a in apps ==> PointerOf(current, a) == PutBack(PointerOf(was, a)))
                && Captured(current, apps) == captured
    {
      var undone := RestorePointers(apps, captured, oldLinks, env);
      if !undone {
        return UndoFailed;
      }
      return if begun && !env.refreshOld then UndoneButStale else Undone;
    }

    /** `run_legacy_symlink_activation`: `rows` and `coherent` come from the builds view, and
        `toolchain` is the target row's. Refreshing the runtime does not touch the pointers. */
    method Activate(apps: seq<AppId>, rows: seq<Generation>, coherent: set<Generation>, target: Generation,
                    toolchain: Option<string>, rollback: bool, env: Env)
      returns (r: Outcome)
      modifies this
      ensures r.Rejected? <==>
                || target !in rows || target !in coherent
                || (rollback && old(links).GetOr(DEFAULT_LINKS).previous != Some(target))
      ensures r.Activated? <==> !r.Rejected? && AllAttach(env.attach, |apps|) && env.refresh && env.writeLinks
      ensures r.UndoFailed? <==>
                && !r.Rejected? && !r.Activated?
                && !RestoreWorks(env, apps, Captured(old(current), apps),
                                 Switched(old(current), apps, target, env.attach, |apps|))
      ensures r.UndoneButStale? <==>
                !r.Rejected? && !r.Activated? && !r.UndoFailed? && AllAttach(env.attach, |apps|) && !env.refreshOld
      ensures r.Rejected? ==> current == old(current) && links == old(links)
      ensures forall a :: a !in apps ==> PointerOf(current, a) == PointerOf(old(current), a)
      ensures r.Activated? ==>
                && (forall a :: a in apps ==> PointerOf(current, a) == At(target))
                && links.Some?
                && links.value.activeToolchain == toolchain
                && (var was := old(links).GetOr(DEFAULT_LINKS).candidate;
                    links.value.candidate == if was == Some(target) then None else was)
                && forall p :: links.value.previous == Some(p) <==>
                               && apps != [] && p != target
                               && forall a :: a in apps ==> PointerOf(old(current), a) == At(p)
      ensures r.Undone? || r.UndoneButStale? ==>
                && (forall a :: a in apps ==>
                      var was := PointerOf(old(current), a);
                      PointerOf(current, a) == if was == Broken then Absent else was)
                && Captured(current, apps) == Captured(old(current), apps)
                && links == Some(old(links).GetOr(DEFAULT_LINKS))
      ensures r.Undone? || r.UndoneButStale? ==>
                ((forall a :: a in apps ==> PointerOf(current, a) == PointerOf(old(current), a))
                 <==> (forall a :: a in apps ==> PointerOf(old(current), a) != Broken))
    {
      var view := links.GetOr(DEFAULT_LINKS);
      if target !in rows || target !in coherent {
        return Rejected;
      }
      if rollback && view.previous != Some(target) {
        return Rejected;
      }
      var oldLinks := view;
      ghost var was := current;
      PutBackIsExact(was, apps);
      var captured := Captured(current, apps);
      var switched := SwitchPointers(apps, target, env.attach);
      if !switched {
        r := RollBack(apps, captured, oldLinks, env, false, was);
        return;
      }
      var finished := false;
      if env.refresh {
        var before := CommonGeneration(Values(captured, apps));
        forall p ensures before == Some(p) <==> PointAt(was, apps, p) { CommonIsWhereAllPoint(was, apps, p); }
        finished := WriteLinks(NewLinks(oldLinks, before, target, toolchain), env.writeLinks);
      }
      if finished {
        return Activated;
      }
      r := RollBack(apps, captured, oldLinks, env, true, was);
    }

    /** An activation of `h` when every app points at `g`, then a rollback to `g`: the rollback is
        admitted as long as `g` is still there, points every app at `g` again and offers `h` as the
        next rollback. */
    method ActivateAndRollBack(apps: seq<AppId>, g: Generation, h: Generation,
                               rows: seq<Generation>, coherent: set<Generation>, toolchain: Option<string>, env: Env,
                               rowsAfter: seq<Generation>, coherentAfter: set<Generation>,
                               oldToolchain: Option<string>, envAfter: Env)
      returns (forward: Outcome, back: Outcome)
      requires PointAt(current, apps, g) && g != h
      modifies this
      ensures forward.Activated? ==>
                && (back.Rejected? <==> g !in rowsAfter || g !in coherentAfter)
                && (back.Rejected? ==> PointAt(current, apps, h))
                && (back.Activated? ==> PointAt(current, apps, g) && links.GetOr(DEFAULT_LINKS).previous == Some(h))
                && (back.Undone? || back.UndoneButStale? ==>
                      PointAt(current, apps, h) && links.GetOr(DEFAULT_LINKS).previous == Some(g))
    {
      back := Rejected;
      forward := Activate(apps, rows, coherent, h, toolchain, false, env);
      if forward.Activated? {
        assert links.value.previous == Some(g);
        assert PointAt(current, apps, h);
        back := Activate(apps, rowsAfter, coherentAfter, g, oldToolchain, true, envAfter);
      }
    }
  }

  /** There are apps, and every one of them points at `generation`. */
  predicate PointAt(current: map<AppId, Pointer>, apps: seq<AppId>, generation: Generation) {
    apps != [] && forall a :: a in apps ==> PointerOf(current, a) == At(generation)
  }

  lemma CommonIsWhereAllPoint(current: map<AppId, Pointer>, apps: seq<AppId>, g: Generation)
    ensures CommonGeneration(Values(Captured(current, apps), apps)) == Some(g) <==> PointAt(current, apps, g)
  {
    var captured := Captured(current, apps);
    RowActiveIffCommon(apps, captured, g);
    if RowActive(apps, captured, g) {
      forall a | a in apps ensures PointerOf(current, a) == At(g) { assert captured[a] == Some(g); }
    }
  }

  /** A rollback puts every pointer back exactly when none was present but unresolvable: such a
      pointer is captured as missing and removed. */
  lemma PutBackIsExact(current: map<AppId, Pointer>, apps: seq<AppId>)
    ensures (forall a :: a in apps ==> PutBack(PointerOf(current, a)) == PointerOf(current, a))
            <==> (forall a :: a in apps ==> PointerOf(current, a) != Broken)
  {
    if forall a :: a in apps ==> PutBack(PointerOf(current, a)) == PointerOf(current, a) {
      forall a | a in apps ensures PointerOf(current, a) != Broken {
        assert PutBack(PointerOf(current, a)) == PointerOf(current, a);
      }
    }
  }

  /** After an activation the view shows the target as the active generation. */
  lemma ActivatedIsActive(current: map<AppId, Pointer>, apps: seq<AppId>, rows: seq<Generation>, target: Generation)
    requires apps != [] && target in rows
    requires forall a :: a in apps ==> PointerOf(current, a) == At(target)
    ensures ViewActive(apps, Captured(current, apps), rows) == Some(target)
  {
    var captured := Captured(current, apps);
    assert RowActive(apps, captured, target);
    RowActiveIffCommon(apps, captured, target);
    ViewActiveIsCommon(apps, captured, rows);
  }
}
