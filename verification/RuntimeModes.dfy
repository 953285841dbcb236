/** Which runtime mode a preview scope gets from a plan, and what that permits. */
module RuntimeModes {
  import opened Scopes
  import opened Utf8Coding
  import opened Wrappers

  datatype RuntimeMode = Hot | Lazy | Frozen

  datatype Target = Target(scope: string, mode: RuntimeMode)

  datatype PlanApp = PlanApp(targets: seq<Target>, metricOverrides: map<string, RuntimeMode>)

  datatype RuntimePlan = RuntimePlan(defaultMode: RuntimeMode, apps: map<string, PlanApp>)

  // ---- Matches ----

  /** `str::len`: the number of bytes. */
  function Utf8Length(s: string): nat {
    if s == "" then 0
    else
      var n := s[|s| - 1] as int;
      Utf8Length(s[..|s| - 1]) + if n < 0x80 then 1 else if n < 0x800 then 2 else if n < 0x1_0000 then 3 else 4
  }

  lemma {:induction false} OneMoreChar(s: string, c: char)
    ensures |Utf8(s + [c])| == |Utf8(s)| + |Utf8Char(c)|
  {
    if s == "" {
      assert [c][1..] == "";
    } else {
      assert (s + [c])[1..] == s[1..] + [c];
      OneMoreChar(s[1..], c);
    }
  }

  lemma {:induction false} LengthCountsBytes(s: string)
    ensures Utf8Length(s) == |Utf8(s)|
  {
    if s != "" {
      var init, c := s[..|s| - 1], s[|s| - 1];
      LengthCountsBytes(init);
      assert init + [c] == s;
      OneMoreChar(init, c);
    }
  }

  function Prefix(t: Target): string { NormalizeScope(t.scope) }

  predicate Hits(t: Target, scope: string) { Covers(Prefix(t), scope) }

  // ---- Resolution ----

  datatype Selected = Selected(specificity: nat, mode: RuntimeMode)

  function Consider(best: Selected, t: Target, scope: string): Selected {
    if Hits(t, scope) && Utf8Length(Prefix(t)) >= best.specificity
    then Selected(Utf8Length(Prefix(t)), t.mode)
    else best
  }

  function Scan(targets: seq<Target>, scope: string, default: RuntimeMode): Selected {
    if targets == [] then Selected(0, default)
    else Consider(Scan(targets[..|targets| - 1], scope, default), targets[|targets| - 1], scope)
  }

  function Resolve(targets: seq<Target>, scope: string, default: RuntimeMode): RuntimeMode {
    Scan(targets, scope, default).mode
  }

  function EffectiveAppPlan(plan: RuntimePlan, app: string): Option<PlanApp> {
    if app in plan.apps then Some(plan.apps[app])
    else if "*" in plan.apps then Some(plan.apps["*"])
    else None
  }

  function ModeForScope(plan: RuntimePlan, app: string, previewScope: string): RuntimeMode {
    match EffectiveAppPlan(plan, app)
    case Some(a) => Resolve(a.targets, NormalizeScope(previewScope), plan.defaultMode)
    case None => plan.defaultMode
  }

  /** `runtime_mode_for_scope`, as the loop over the plan's targets. */
  method RuntimeModeForScope(plan: RuntimePlan, app: string, previewScope: string) returns (mode: RuntimeMode)
    ensures mode == ModeForScope(plan, app, previewScope)
  {
    var selected := Selected(0, plan.defaultMode);
    var effective := EffectiveAppPlan(plan, app);
    if effective.Some? {
      var normalized := NormalizeScope(previewScope);
      var targets := effective.value.targets;
      for k := 0 to |targets|
        invariant selected == Scan(targets[..k], normalized, plan.defaultMode)
      {
        assert targets[..k + 1][..k] == targets[..k];
        var prefix := NormalizeScope(targets[k].scope);
        if prefix == "*" || normalized == prefix || prefix + "/" <= normalized {
          var specificity := Utf8Length(prefix);
          if specificity >= selected.specificity {
            selected := Selected(specificity, targets[k].mode);
          }
        }
      }
      assert targets[..|targets|] == targets;
    }
    return selected.mode;
  }

  // ---- What resolution returns ----

  /** Target `t` of the list matches, and no match of the list is longer. */
  ghost predicate Longest(targets: seq<Target>, scope: string, t: Target) {
    t in targets && Hits(t, scope)
    && forall u :: u in targets && Hits(u, scope) ==> Utf8Length(Prefix(u)) <= Utf8Length(Prefix(t))
  }

  ghost predicate LastLongest(targets: seq<Target>, scope: string, i: nat) {
    i < |targets| && Longest(targets, scope, targets[i])
    && forall j :: i < j < |targets| ==> !Longest(targets, scope, targets[j])
  }

  /** The scan's running best, as an index: -1 while nothing matched. */
  lemma {:induction false} ScanFindsLastLongest(targets: seq<Target>, scope: string, default: RuntimeMode)
    returns (i: int)
    ensures i < |targets|
    ensures i < 0 ==>
              && Scan(targets, scope, default) == Selected(0, default)
              && forall t :: t in targets ==> !Hits(t, scope)
    ensures i >= 0 ==>
              && LastLongest(targets, scope, i)
              && Scan(targets, scope, default) == Selected(Utf8Length(Prefix(targets[i])), targets[i].mode)
    decreases |targets|
  {
    if targets == [] {
      return -1;
    }
    var init, t := targets[..|targets| - 1], targets[|targets| - 1];
    assert targets == init + [t];
    i := ScanFindsLastLongest(init, scope, default);
    if Hits(t, scope) && (i < 0 || Utf8Length(Prefix(t)) >= Utf8Length(Prefix(init[i]))) {
      i := |targets| - 1;
    } else if i >= 0 {
      StillLastLongest(init, t, scope, i);
    }
  }

  lemma LongestInPart(init: seq<Target>, t: Target, scope: string, u: Target)
    ensures u in init && Longest(init + [t], scope, u) ==> Longest(init, scope, u)
  {
    assert forall x :: x in init ==> x in init + [t];
  }

  lemma StillLastLongest(init: seq<Target>, t: Target, scope: string, i: nat)
    requires LastLongest(init, scope, i)
    requires Hits(t, scope) ==> Utf8Length(Prefix(t)) < Utf8Length(Prefix(init[i]))
    ensures LastLongest(init + [t], scope, i)
  {
    var targets := init + [t];
    assert targets[i] == init[i];
    forall u { LongestInPart(init, t, scope, u); }
  }

  /** Resolution returns the mode of the last target among the longest matches, else the default. */
  lemma ResolvesToLastLongest(targets: seq<Target>, scope: string, default: RuntimeMode)
    ensures forall i: nat :: LastLongest(targets, scope, i) ==> Resolve(targets, scope, default) == targets[i].mode
    ensures (forall t :: t in targets ==> !Hits(t, scope)) ==> Resolve(targets, scope, default) == default
    ensures (exists t :: t in targets && Hits(t, scope)) ==> exists i: nat :: LastLongest(targets, scope, i)
  {
    var k := ScanFindsLastLongest(targets, scope, default);
    forall i: nat | LastLongest(targets, scope, i) ensures i == k {
      assert Longest(targets, scope, targets[i]);
    }
    if k >= 0 {
      assert targets[k] in targets;
    }
  }

  /** The app has this entry in the plan, under its own name or, if there is none, under `*`. */
  predicate HasEntry(plan: RuntimePlan, app: string, entry: PlanApp) {
    var key := if app in plan.apps then app else "*";
    key in plan.apps && plan.apps[key] == entry
  }

  /** A plan with one target gives its mode to the scopes that begin with the target's segments,
      and the default to all others. */
  lemma SingleTargetDecides(plan: RuntimePlan, app: string, entry: PlanApp, t: Target, scope: string)
    requires HasEntry(plan, app, entry) && entry.targets == [t]
    ensures ModeForScope(plan, app, scope)
            == if Prefix(t) == "*" || Segments(Prefix(t)) <= Segments(NormalizeScope(scope)) then t.mode
               else plan.defaultMode
  {
    CoversBySegments(Prefix(t), NormalizeScope(scope));
    ScanOfOne(t, NormalizeScope(scope), plan.defaultMode);
  }

  lemma ScanOfOne(t: Target, scope: string, default: RuntimeMode)
    ensures Resolve([t], scope, default) == if Hits(t, scope) then t.mode else default
  {
    assert [t][..0] == [];
    assert Scan([t][..0], scope, default) == Selected(0, default);
  }

  /** In particular to itself and whatever follows a slash, and not to a longer name. */
  lemma TargetReachesBelowItself(plan: RuntimePlan, app: string, entry: PlanApp, p: string, mode: RuntimeMode,
                                 rest: string)
    requires HasEntry(plan, app, entry) && entry.targets == [Target(p, mode)] && Normal(p) && p != "*"
    ensures ModeForScope(plan, app, p) == mode
    ensures Normal(p + "/" + rest) ==> ModeForScope(plan, app, p + "/" + rest) == mode
    ensures Normal(p + rest) && rest != "" && rest[0] != '/' ==> ModeForScope(plan, app, p + rest) == plan.defaultMode
  {
    var t := Target(p, mode);
    NormalIffKept(p);
    NormalIffKept(p + "/" + rest);
    NormalIffKept(p + rest);
    ScanOfOne(t, p, plan.defaultMode);
    ScanOfOne(t, p + "/" + rest, plan.defaultMode);
    ScanOfOne(t, p + rest, plan.defaultMode);
    assert rest != "" && rest[0] != '/' ==> (p + rest)[|p|] != (p + "/")[|p|];
  }

  /** An app without an entry gets the default for every scope. */
  lemma NoEntryGivesDefault(plan: RuntimePlan, app: string, scope: string)
    requires app !in plan.apps && "*" !in plan.apps
    ensures ModeForScope(plan, app, scope) == plan.defaultMode
  {
  }

  lemma {:induction false} LengthGrows(s: string, k: nat)
    requires k <= |s|
    ensures Utf8Length(s[..k]) + (|s| - k) <= Utf8Length(s)
  {
    if k == |s| {
      assert s[..k] == s;
    } else {
      assert s[..|s| - 1][..k] == s[..k];
      LengthGrows(s[..|s| - 1], k);
    }
  }

  lemma SameLengthPrefix(p: string, q: string)
    ensures p <= q && Utf8Length(p) == Utf8Length(q) ==> p == q
  {
    if p <= q {
      LengthGrows(q, |p|);
      assert q[..|p|] == p;
    }
  }

  /** Two matches of the same length are the same prefix, the wildcard apart. */
  lemma EqualLengthMatchesAreEqual(scope: string, p: string, q: string)
    requires Covers(p, scope) && Covers(q, scope) && p != "*" && q != "*"
    requires Utf8Length(p) == Utf8Length(q)
    ensures p == q
  {
    assert p == scope[..|p|] && q == scope[..|q|];
    SameLengthPrefix(p, q);
    SameLengthPrefix(q, p);
  }

  // ---- Independence of the order of targets ----

  /** The longest matches agree on the mode. */
  ghost predicate LongestAgree(targets: seq<Target>, scope: string) {
    forall t, u :: Longest(targets, scope, t) && Longest(targets, scope, u) ==> t.mode == u.mode
  }

  ghost predicate Permutation(targets: seq<Target>, others: seq<Target>) {
    multiset(targets) == multiset(others)
  }

  ghost predicate OrderIrrelevant(targets: seq<Target>, scope: string, default: RuntimeMode) {
    forall others :: Permutation(targets, others) ==>
      Resolve(others, scope, default) == Resolve(targets, scope, default)
  }

  lemma PermutationKeepsLongest(targets: seq<Target>, others: seq<Target>, scope: string, t: Target)
    requires Permutation(targets, others)
    ensures Longest(targets, scope, t) <==> Longest(others, scope, t)
    ensures t in targets <==> t in others
  {
    assert forall u :: u in targets <==> u in multiset(targets);
    assert forall u :: u in others <==> u in multiset(others);
  }

  lemma ResolvesToSomeLongest(targets: seq<Target>, scope: string, default: RuntimeMode) returns (t: Target)
    requires exists u :: u in targets && Hits(u, scope)
    ensures Longest(targets, scope, t) && Resolve(targets, scope, default) == t.mode
  {
    var i := ScanFindsLastLongest(targets, scope, default);
    t := targets[i];
  }

  /** A longest match moved to the end decides. */
  lemma LongestLastDecides(targets: seq<Target>, scope: string, default: RuntimeMode, t: Target)
    returns (others: seq<Target>)
    requires Longest(targets, scope, t)
    ensures Permutation(targets, others) && Resolve(others, scope, default) == t.mode
  {
    var i :| 0 <= i < |targets| && targets[i] == t;
    var a, b := targets[..i], targets[i + 1..];
    others := a + b + [t];
    assert targets == a + [t] + b;
    PermutationKeepsLongest(targets, others, scope, t);
    assert LastLongest(others, scope, |others| - 1);
    ResolvesToLastLongest(others, scope, default);
  }

  /** The answer is the same for every order of the targets exactly when all longest matches have
      the same mode. */
  lemma OrderIrrelevantIffLongestAgree(targets: seq<Target>, scope: string, default: RuntimeMode)
    ensures OrderIrrelevant(targets, scope, default) <==> LongestAgree(targets, scope)
  {
    if OrderIrrelevant(targets, scope, default) {
      forall t, u | Longest(targets, scope, t) && Longest(targets, scope, u) ensures t.mode == u.mode {
        var x := LongestLastDecides(targets, scope, default, t);
        var y := LongestLastDecides(targets, scope, default, u);
      }
    }
    if LongestAgree(targets, scope) {
      forall others | Permutation(targets, others)
        ensures Resolve(others, scope, default) == Resolve(targets, scope, default)
      {
        forall u ensures u in targets <==> u in others { PermutationKeepsLongest(targets, others, scope, u); }
        if exists u :: u in targets && Hits(u, scope) {
          var t := ResolvesToSomeLongest(targets, scope, default);
          var u := ResolvesToSomeLongest(others, scope, default);
          PermutationKeepsLongest(targets, others, scope, u);
        } else {
          ResolvesToLastLongest(targets, scope, default);
          ResolvesToLastLongest(others, scope, default);
        }
      }
    }
  }

  /** With distinct normalized scopes, and no one-byte scope beside the wildcard, order never matters. */
  lemma DistinctScopesAreOrderFree(targets: seq<Target>, scope: string, default: RuntimeMode)
    requires forall i, j :: 0 <= i < j < |targets| ==> Prefix(targets[i]) != Prefix(targets[j])
    requires (exists t :: t in targets && Prefix(t) == "*") ==>
               forall t :: t in targets && Prefix(t) != "*" ==> Utf8Length(Prefix(t)) != 1
    ensures OrderIrrelevant(targets, scope, default)
  {
    assert "*"[..0] == "";
    assert Utf8Length("*") == 1;
    forall t, u | Longest(targets, scope, t) && Longest(targets, scope, u) ensures t.mode == u.mode {
      var i :| 0 <= i < |targets| && targets[i] == t;
      var j :| 0 <= j < |targets| && targets[j] == u;
      if Prefix(t) != "*" && Prefix(u) != "*" {
        EqualLengthMatchesAreEqual(scope, Prefix(t), Prefix(u));
      }
      assert Prefix(targets[i]) == Prefix(targets[j]);
      assert i == j;
    }
    OrderIrrelevantIffLongestAgree(targets, scope, default);
  }

  // ---- Permissions derived from a plan ----

  datatype Profile = Full | Static | Scoped

  /** The configuration `dev_eval_from_runtime_plan` derives, as far as permissions consult it. */
  datatype PlanConfig = PlanConfig(profile: Profile, plan: RuntimePlan, app: string)

  predicate SomethingThaws(a: PlanApp) {
    || (exists t | t in a.targets :: t.mode != Frozen)
    || (exists k | k in a.metricOverrides :: a.metricOverrides[k] != Frozen)
  }

  function ConfigFromPlan(plan: RuntimePlan, app: string): PlanConfig {
    var thaws :=
      if app == "*" then exists k | k in plan.apps :: SomethingThaws(plan.apps[k])
      else EffectiveAppPlan(plan, app).Some? && SomethingThaws(EffectiveAppPlan(plan, app).value);
    PlanConfig(if plan.defaultMode == Hot then Full
               else if plan.defaultMode != Frozen || thaws then Scoped
               else Static,
               plan, app)
  }

  predicate AllowsEvalScope(c: PlanConfig, scope: string) { ModeForScope(c.plan, c.app, scope) != Frozen }

  predicate AllowsWarmupScope(c: PlanConfig, scope: string) { ModeForScope(c.plan, c.app, scope) == Hot }

  predicate AllowsRewarm(c: PlanConfig) {
    if c.profile == Static then false
    else
      match EffectiveAppPlan(c.plan, c.app)
      case None => c.plan.defaultMode != Frozen
      case Some(a) =>
        var overridesAllFrozen := a.metricOverrides != map[]
          && forall k | k in a.metricOverrides :: a.metricOverrides[k] == Frozen;
        var targetsAllFrozen := a.targets != [] && forall t | t in a.targets :: t.mode == Frozen;
        !(c.plan.defaultMode == Frozen
          && (a.targets == [] || targetsAllFrozen)
          && (a.metricOverrides == map[] || overridesAllFrozen))
  }

  predicate EverythingFrozen(a: PlanApp) {
    && (forall t | t in a.targets :: t.mode == Frozen)
    && (forall k | k in a.metricOverrides :: a.metricOverrides[k] == Frozen)
  }

  /** The profile is Full exactly for a Hot default, and Static exactly if the default is Frozen and
      so is everything in the entries looked at: for `*` all of them, else the effective one. */
  lemma ProfileFollowsPlan(plan: RuntimePlan, app: string)
    ensures
      var profile := ConfigFromPlan(plan, app).profile;
      && (profile == Full <==> plan.defaultMode == Hot)
      && (profile == Static <==>
            && plan.defaultMode == Frozen
            && (app == "*" ==> forall k :: k in plan.apps ==> EverythingFrozen(plan.apps[k]))
            && (app != "*" ==> forall entry :: HasEntry(plan, app, entry) ==> EverythingFrozen(entry)))
  {
    if app != "*" && plan.defaultMode == Frozen {
      var key := if app in plan.apps then app else "*";
      if key in plan.apps { assert HasEntry(plan, app, plan.apps[key]); }
    }
  }

  /** Rewarm is allowed exactly when the default, some target or some metric override of the
      effective plan is not Frozen. It holds for `*` as well as for named apps. */
  lemma RewarmIffSomethingThaws(plan: RuntimePlan, app: string)
    ensures AllowsRewarm(ConfigFromPlan(plan, app))
            <==> || plan.defaultMode != Frozen
                 || (EffectiveAppPlan(plan, app).Some? && SomethingThaws(EffectiveAppPlan(plan, app).value))
  {
    if app == "*" && EffectiveAppPlan(plan, app).Some? && SomethingThaws(EffectiveAppPlan(plan, app).value) {
      assert SomethingThaws(plan.apps["*"]);
    }
  }

  /** Evaluation and warmup follow the last of the longest matches of the effective entry, or the
      default where nothing matches. */
  lemma PermissionsFollowLongest(plan: RuntimePlan, app: string, entry: PlanApp, scope: string, i: nat)
    requires HasEntry(plan, app, entry)
    ensures
      var c, n := ConfigFromPlan(plan, app), NormalizeScope(scope);
      && (LastLongest(entry.targets, n, i) ==>
            && (AllowsEvalScope(c, scope) <==> entry.targets[i].mode in {Hot, Lazy})
            && (AllowsWarmupScope(c, scope) <==> entry.targets[i].mode == Hot))
      && ((forall t :: t in entry.targets ==> !Hits(t, n)) ==>
            && (AllowsEvalScope(c, scope) <==> plan.defaultMode in {Hot, Lazy})
            && (AllowsWarmupScope(c, scope) <==> plan.defaultMode == Hot))
  {
    ResolvesToLastLongest(entry.targets, NormalizeScope(scope), plan.defaultMode);
  }

  /** For every plan, app and scope: warmup implies evaluation, and evaluation implies rewarm. */
  lemma PermissionsNest(plan: RuntimePlan, app: string, scope: string)
    ensures
      var c := ConfigFromPlan(plan, app);
      && (AllowsWarmupScope(c, scope) ==> AllowsEvalScope(c, scope))
      && (AllowsEvalScope(c, scope) ==> AllowsRewarm(c))
  {
    RewarmIffSomethingThaws(plan, app);
    match EffectiveAppPlan(plan, app)
    case None =>
    case Some(a) =>
      var n := NormalizeScope(scope);
      if exists t :: t in a.targets && Hits(t, n) {
        var t := ResolvesToSomeLongest(a.targets, n, plan.defaultMode);
      } else {
        ResolvesToLastLongest(a.targets, n, plan.defaultMode);
      }
  }
}
