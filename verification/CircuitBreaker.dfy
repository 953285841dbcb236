/** The per-app circuit breaker in front of the runtime proxy, and its meaning as a function of
    the history of recorded failures and successes. */
module CircuitBreaker {
  import opened Wrappers

  type AppId = string

  const U32_MAX: nat := 0xFFFF_FFFF
  const U64_MAX: nat := 0xFFFF_FFFF_FFFF_FFFF
  const THRESHOLD: nat := 5
  const OPEN_MS: nat := 5000

  type Millis = t: nat | t <= U64_MAX

  function SaturatingAdd(a: nat, b: nat, max: nat): nat { if a + b > max then max else a + b }

  datatype CircuitState = CircuitState(consecutiveFailures: nat, openUntilMs: nat)

  type Circuits = map<AppId, CircuitState>

  /** What the proxy did to the breaker, oldest first. */
  datatype Event =
    | Failed(app: AppId, at: Millis)
    | Succeeded(app: AppId, at: Millis)
    | Checked(app: AppId, at: Millis)

  // ---- The breaker's state ----

  predicate IsOpen(c: Circuits, app: AppId, now: Millis) {
    app in c && now < c[app].openUntilMs
  }

  function AfterCheck(c: Circuits, app: AppId, now: Millis): Circuits {
    if app in c && c[app].openUntilMs <= now then c[app := c[app].(openUntilMs := 0)] else c
  }

  function AfterFailure(c: Circuits, app: AppId, now: Millis): Circuits {
    var was := if app in c then c[app] else CircuitState(0, 0);
    var failures := SaturatingAdd(was.consecutiveFailures, 1, U32_MAX);
    c[app := CircuitState(failures,
                              if failures >= THRESHOLD then SaturatingAdd(now, OPEN_MS, U64_MAX) else was.openUntilMs)]
  }

  function After(c: Circuits, e: Event): Circuits {
    match e
    case Failed(app, at) => AfterFailure(c, app, at)
    case Succeeded(app, _) => c - {app}
    case Checked(app, at) => AfterCheck(c, app, at)
  }

  function Replay(h: seq<Event>): Circuits
    decreases |h|
  {
    if h == [] then map[] else After(Replay(h[..|h| - 1]), h[|h| - 1])
  }

  /** How a request to the runtime ends; it is dropped if its client hangs up while it waits. */
  datatype Fate = Responded | Unreachable | Dropped

  datatype Request = Request(app: AppId, asked: Millis, permit: bool, fate: Fate, ended: Millis)

  /** The deadline that a check at time `asked` leaves. */
  function CheckedUntil(c: Circuits, app: AppId, asked: Millis): nat {
    if app !in c || c[app].openUntilMs <= asked then 0 else c[app].openUntilMs
  }

  predicate SameForOthers(c: Circuits, d: Circuits, app: AppId) {
    && d.Keys - {app} == c.Keys - {app}
    && forall b :: b in c && b != app ==> b in d && d[b] == c[b]
  }

  function AfterAll(c: Circuits, events: seq<Event>): Circuits
    decreases |events|
  {
    if events == [] then c else After(AfterAll(c, events[..|events| - 1]), events[|events| - 1])
  }

  lemma AfterAppend(c: Circuits, events: seq<Event>, e: Event)
    ensures AfterAll(c, events + [e]) == After(AfterAll(c, events), e)
  {
    assert (events + [e])[..|events|] == events;
  }

  class Breaker {
    var circuits: Circuits

    constructor ()
      ensures circuits == map[]
    {
      circuits := map[];
    }

    /** `circuit_open_response`: `Some` carries the time at which to retry. */
    method CircuitOpen(app: AppId, now: Millis) returns (retryAt: Option<nat>)
      modifies this
      ensures circuits == After(old(circuits), Checked(app, now))
      ensures retryAt.Some? <==> IsOpen(old(circuits), app, now)
      ensures retryAt.Some? ==> circuits == old(circuits) && retryAt.value == circuits[app].openUntilMs > now
    {
      if app !in circuits {
        return None;
      }
      var state := circuits[app];
      if state.openUntilMs <= now {
        circuits := circuits[app := state.(openUntilMs := 0)];
        return None;
      }
      return Some(state.openUntilMs);
    }

    method RecordFailure(app: AppId, now: Millis)
      modifies this
      ensures circuits == After(old(circuits), Failed(app, now))
    {
      var state := if app in circuits then circuits[app] else CircuitState(0, 0);
      state := state.(consecutiveFailures := SaturatingAdd(state.consecutiveFailures, 1, U32_MAX));
      if state.consecutiveFailures >= THRESHOLD {
        state := state.(openUntilMs := SaturatingAdd(now, OPEN_MS, U64_MAX));
      }
      circuits := circuits[app := state];
    }

    method RecordSuccess(app: AppId, now: Millis)
      modifies this
      ensures circuits == After(old(circuits), Succeeded(app, now))
    {
      circuits := circuits - {app};
    }

    /** The breaker's part in `proxy_request`. An open circuit refuses the request, which then
        reaches no runtime, as does one without a permit; `events` is what the request recorded. */
    method ProxyRequest(app: AppId, asked: Millis, permit: bool, fate: Fate, ended: Millis)
      returns (refused: bool, events: seq<Event>)
      modifies this
      ensures refused <==> app in old(circuits) && asked < old(circuits)[app].openUntilMs
      ensures !refused && permit && fate.Responded? ==> app !in circuits
      ensures !refused && permit && fate.Unreachable? ==>
                && app in circuits
                && (var was := if app in old(circuits) then old(circuits)[app].consecutiveFailures else 0;
                    circuits[app].consecutiveFailures == if was < 0xFFFF_FFFF then was + 1 else 0xFFFF_FFFF)
                && circuits[app].openUntilMs ==
                   (if circuits[app].consecutiveFailures < 5 then CheckedUntil(old(circuits), app, asked)
                    else if ended + 5000 <= 0xFFFF_FFFF_FFFF_FFFF then ended + 5000
                    else 0xFFFF_FFFF_FFFF_FFFF)
      ensures refused || !permit || fate.Dropped? ==>
                && (app in circuits <==> app in old(circuits))
                && (app in circuits ==>
                      && circuits[app].consecutiveFailures == old(circuits)[app].consecutiveFailures
                      && circuits[app].openUntilMs == CheckedUntil(old(circuits), app, asked))
      ensures SameForOthers(old(circuits), circuits, app)
      ensures circuits == AfterRequest(old(circuits), Request(app, asked, permit, fate, ended), !refused && permit)
      ensures circuits == AfterAll(old(circuits), events)
      ensures refused || !permit || fate.Dropped? ==> events == [Checked(app, asked)]
      ensures !refused && permit && fate.Responded? ==> events == [Checked(app, asked), Succeeded(app, ended)]
      ensures !refused && permit && fate.Unreachable? ==> events == [Checked(app, asked), Failed(app, ended)]
    {
      var open := CircuitOpen(app, asked);
      refused := open.Some?;
      events := [Checked(app, asked)];
      AfterAppend(old(circuits), [], Checked(app, asked));
      assert [] + events == events;
      if refused || !permit {
        return;
      }
      match fate
      case Responded =>
        RecordSuccess(app, ended);
        AfterAppend(old(circuits), events, Succeeded(app, ended));
        events := events + [Succeeded(app, ended)];
      case Unreachable =>
        RecordFailure(app, ended);
        AfterAppend(old(circuits), events, Failed(app, ended));
        events := events + [Failed(app, ended)];
      case Dropped =>
    }

    /** Any requests to any apps, one after the other, on a new breaker and with a clock that does
        not go back: a request is refused exactly when at least 5 of the app's requests since its
        last response found the runtime unreachable and it comes within 5000 ms of the last. */
    method ServeAll(requests: seq<Request>) returns (refused: seq<bool>)
      requires circuits == map[] && Forward(requests)
      modifies this
      ensures |refused| == |requests|
      ensures forall i :: 0 <= i < |requests| ==> (refused[i] <==> Refuses(requests[..i], requests[i]))
    {
      refused := [];
      ghost var now: Millis := 0;
      for i := 0 to |requests|
        invariant |refused| == i
        invariant forall k :: 0 <= k < i ==> (refused[k] <==> Refuses(requests[..k], requests[k]))
        invariant forall app :: Tells(circuits, requests[..i], app, now)
        invariant now == if i == 0 then 0 else requests[i - 1].ended
      {
        var r := requests[i];
        ghost var h, before := requests[..i], circuits;
        CheckTells(before, h, r, now);
        var no, _ := ProxyRequest(r.app, r.asked, r.permit, r.fate, r.ended);
        refused := refused + [no];
        assert requests[..i + 1] == h + [r];
        assert circuits == AfterRequest(before, r, Reaches(h, r));
        forall app: AppId ensures Tells(circuits, h + [r], app, r.ended) {
          if app == r.app { RequestTells(before, h, r, now); } else { OthersTell(before, h, r, app, now); }
        }
        now := r.ended;
      }
    }
  }

  // ---- Its meaning ----

  /** Failures of `app` recorded since its last success. */
  function FailuresSince(h: seq<Event>, app: AppId): nat
    decreases |h|
  {
    if h == [] then 0
    else
      var before := FailuresSince(h[..|h| - 1], app);
      match h[|h| - 1]
      case Failed(a, _) => if a == app then before + 1 else before
      case Succeeded(a, _) => if a == app then 0 else before
      case Checked(_, _) => before
  }

  /** When `app` last failed; 0 if it never did. */
  function LastFailure(h: seq<Event>, app: AppId): Millis
    decreases |h|
  {
    if h == [] then 0
    else if h[|h| - 1].Failed? && h[|h| - 1].app == app then h[|h| - 1].at
    else LastFailure(h[..|h| - 1], app)
  }

  function OpenUntil(h: seq<Event>, app: AppId): nat { SaturatingAdd(LastFailure(h, app), OPEN_MS, U64_MAX) }

  /** At least 5 failures since the last success, and before the last failure plus 5000 ms. */
  predicate OpenByHistory(h: seq<Event>, app: AppId, now: Millis) {
    FailuresSince(h, app) >= THRESHOLD && now < OpenUntil(h, app)
  }

  /** A check has already seen the present opening expire. */
  predicate ExpirySeen(h: seq<Event>, app: AppId)
    decreases |h|
  {
    h != [] &&
    var e := h[|h| - 1];
    if e.app != app then ExpirySeen(h[..|h| - 1], app)
    else if e.Checked? then e.at >= OpenUntil(h, app) || ExpirySeen(h[..|h| - 1], app)
    else false
  }

  /** Clock readings do not decrease, and none is later than `now`. */
  predicate Monotone(h: seq<Event>, now: Millis)
    decreases |h|
  {
    h == [] || (h[|h| - 1].at <= now && Monotone(h[..|h| - 1], h[|h| - 1].at))
  }

  /** The stored state as a function of the history. */
  predicate Matches(c: Circuits, h: seq<Event>, app: AppId) {
    var n := FailuresSince(h, app);
    && (app in c <==> n > 0)
    && (app in c ==>
          && c[app].consecutiveFailures == (if n > U32_MAX then U32_MAX else n)
          && c[app].openUntilMs == (if n >= THRESHOLD && !ExpirySeen(h, app) then OpenUntil(h, app) else 0))
  }

  lemma {:induction false} ReplayMatches(h: seq<Event>, app: AppId)
    ensures Matches(Replay(h), h, app)
    decreases |h|
  {
    if h != [] {
      ReplayMatches(h[..|h| - 1], app);
    }
  }

  /** For every history, whatever the clock did: the circuit is open exactly when the history says
      so and no check has seen this opening expire. */
  lemma OpenIffHistory(h: seq<Event>, app: AppId, now: Millis)
    ensures IsOpen(Replay(h), app, now) <==> OpenByHistory(h, app, now) && !ExpirySeen(h, app)
  {
    ReplayMatches(h, app);
  }

  lemma {:induction false} ExpirySeenIsPast(h: seq<Event>, app: AppId, now: Millis)
    requires Monotone(h, now) && ExpirySeen(h, app)
    ensures OpenUntil(h, app) <= now
    decreases |h|
  {
    var e, init := h[|h| - 1], h[..|h| - 1];
    if e.app != app || (e.Checked? && e.at < OpenUntil(h, app)) {
      ExpirySeenIsPast(init, app, e.at);
    }
  }

  /** With a clock that does not go back, the breaker is exactly the function of its history. */
  lemma BreakerRefinesHistory(h: seq<Event>, app: AppId, now: Millis)
    requires Monotone(h, now)
    ensures IsOpen(Replay(h), app, now) <==> OpenByHistory(h, app, now)
  {
    OpenIffHistory(h, app, now);
    if ExpirySeen(h, app) {
      ExpirySeenIsPast(h, app, now);
    }
  }

  /** The history without its expiry checks. */
  function WithoutChecks(h: seq<Event>): seq<Event>
    decreases |h|
  {
    if h == [] then []
    else WithoutChecks(h[..|h| - 1]) + if h[|h| - 1].Checked? then [] else [h[|h| - 1]]
  }

  lemma CheckAddsNothing(h: seq<Event>, e: Event, app: AppId)
    requires e.Checked?
    ensures FailuresSince(h + [e], app) == FailuresSince(h, app)
    ensures LastFailure(h + [e], app) == LastFailure(h, app)
    ensures WithoutChecks(h + [e]) == WithoutChecks(h)
  {
    assert (h + [e])[..|h|] == h;
  }

  lemma OthersAreKept(h: seq<Event>, e: Event)
    requires !e.Checked?
    ensures WithoutChecks(h + [e]) == WithoutChecks(h) + [e]
  {
    assert (h + [e])[..|h|] == h;
  }

  lemma {:induction false} ChecksDoNotCount(h: seq<Event>, app: AppId)
    ensures FailuresSince(WithoutChecks(h), app) == FailuresSince(h, app)
    ensures LastFailure(WithoutChecks(h), app) == LastFailure(h, app)
    ensures !ExpirySeen(WithoutChecks(h), app)
    decreases |h|
  {
    if h != [] {
      var init, e := h[..|h| - 1], h[|h| - 1];
      assert h == init + [e];
      ChecksDoNotCount(init, app);
      if e.Checked? {
        CheckAddsNothing(init, e, app);
      } else {
        OthersAreKept(init, e);
        AppendAgrees(WithoutChecks(init), init, e, app);
      }
    }
  }

  /** Two histories that agree about `app` still agree after one more failure or success. */
  lemma AppendAgrees(g: seq<Event>, h: seq<Event>, e: Event, app: AppId)
    requires !e.Checked?
    requires FailuresSince(g, app) == FailuresSince(h, app) && LastFailure(g, app) == LastFailure(h, app)
    requires !ExpirySeen(g, app)
    ensures FailuresSince(g + [e], app) == FailuresSince(h + [e], app)
    ensures LastFailure(g + [e], app) == LastFailure(h + [e], app)
    ensures !ExpirySeen(g + [e], app)
  {
    assert (g + [e])[..|g|] == g && (h + [e])[..|h|] == h;
  }

  /** Asking whether the circuit is open never changes a later answer. */
  lemma ChecksNeverChangeAnswers(h: seq<Event>, app: AppId, now: Millis)
    requires Monotone(h, now)
    ensures IsOpen(Replay(h), app, now) <==> IsOpen(Replay(WithoutChecks(h)), app, now)
  {
    ChecksDoNotCount(h, app);
    BreakerRefinesHistory(h, app, now);
    OpenIffHistory(WithoutChecks(h), app, now);
  }

  function OnlyOf(h: seq<Event>, app: AppId): seq<Event>
    decreases |h|
  {
    if h == [] then []
    else OnlyOf(h[..|h| - 1], app) + if h[|h| - 1].app == app then [h[|h| - 1]] else []
  }

  /** An app's circuit depends on its own events alone. */
  lemma {:induction false} AppsAreIndependent(h: seq<Event>, app: AppId)
    ensures app in Replay(h) <==> app in Replay(OnlyOf(h, app))
    ensures app in Replay(h) ==> Replay(h)[app] == Replay(OnlyOf(h, app))[app]
    decreases |h|
  {
    if h != [] {
      var init := h[..|h| - 1];
      AppsAreIndependent(init, app);
      var o := OnlyOf(h, app);
      if h[|h| - 1].app == app {
        assert o[..|o| - 1] == OnlyOf(init, app);
      } else {
        assert o == OnlyOf(init, app);
      }
    }
  }

  /** With a clock that goes back the breaker may be closed although its history says open: five
      failures at 0, a check at 5000, and a question at 4999. */
  lemma BackwardsClockDiffers(app: AppId)
    ensures
      var h := seq(5, _ => Failed(app, 0)) + [Checked(app, 5000)];
      OpenByHistory(h, app, 4999) && !IsOpen(Replay(h), app, 4999)
  {
    var f: seq<Event> := seq(5, _ => Failed(app, 0));
    var h := f + [Checked(app, 5000)];
    FiveFailures(app);
    assert h[..5] == f;
    OpenIffHistory(h, app, 4999);
  }

  lemma FiveFailures(app: AppId)
    ensures var f: seq<Event> := seq(5, _ => Failed(app, 0)); FailuresSince(f, app) == 5 && LastFailure(f, app) == 0
  {
    var f: seq<Event> := seq(5, _ => Failed(app, 0));
    assert FailuresSince(f[..0], app) == 0;
    assert f[..1][..0] == f[..0] && f[..2][..1] == f[..1] && f[..3][..2] == f[..2] && f[..4][..3] == f[..3];
    assert FailuresSince(f[..1], app) == 1;
    assert FailuresSince(f[..2], app) == 2;
    assert FailuresSince(f[..3], app) == 3;
    assert FailuresSince(f[..4], app) == 4;
  }

  // ---- Requests one after the other ----

  /** The clock readings of the requests do not decrease. */
  predicate Forward(requests: seq<Request>) {
    && (forall i :: 0 <= i < |requests| ==> requests[i].asked <= requests[i].ended)
    && (forall i, j :: 0 <= i < j < |requests| ==> requests[i].ended <= requests[j].asked)
  }

  /** Request `r` after the requests `h` is answered by the open circuit. */
  predicate Refuses(h: seq<Request>, r: Request)
    decreases |h|, 1
  {
    Streak(h, r.app) >= 5 && r.asked < Deadline(LastUnreachable(h, r.app))
  }

  predicate Reaches(h: seq<Request>, r: Request)
    decreases |h|, 2
  {
    r.permit && !Refuses(h, r)
  }

  /** Requests of `app` since its last response that reached no runtime although they were sent. */
  function Streak(h: seq<Request>, app: AppId): nat
    decreases |h|, 0
  {
    if h == [] then 0
    else
      var init, r := h[..|h| - 1], h[|h| - 1];
      if r.app != app || !Reaches(init, r) then Streak(init, app)
      else match r.fate
           case Responded => 0
           case Unreachable => Streak(init, app) + 1
           case Dropped => Streak(init, app)
  }

  /** When the last of them ended. */
  function LastUnreachable(h: seq<Request>, app: AppId): Millis
    decreases |h|, 0
  {
    if h == [] then 0
    else
      var init, r := h[..|h| - 1], h[|h| - 1];
      if r.app == app && Reaches(init, r) && r.fate.Unreachable? then r.ended else LastUnreachable(init, app)
  }

  /** 5000 ms later, as far as the clock goes. */
  function Deadline(at: Millis): nat {
    if at + 5000 <= 0xFFFF_FFFF_FFFF_FFFF then at + 5000 else 0xFFFF_FFFF_FFFF_FFFF
  }

  /** What the breaker's state tells about the requests so far. A deadline may have been dropped
      once it had passed. */
  predicate Tells(c: Circuits, h: seq<Request>, app: AppId, now: Millis) {
    var n, until := Streak(h, app), Deadline(LastUnreachable(h, app));
    && (app in c <==> n > 0)
    && (app in c ==>
          && c[app].consecutiveFailures == (if n < 0xFFFF_FFFF then n else 0xFFFF_FFFF)
          && (n < 5 ==> c[app].openUntilMs == 0)
          && (n >= 5 ==> c[app].openUntilMs == until || (c[app].openUntilMs == 0 && until <= now)))
  }

  lemma CheckTells(c: Circuits, h: seq<Request>, r: Request, now: Millis)
    requires Tells(c, h, r.app, now) && now <= r.asked
    ensures Refuses(h, r) <==> IsOpen(c, r.app, r.asked)
    ensures Tells(AfterCheck(c, r.app, r.asked), h, r.app, r.asked)
  {
  }

  /** The breaker after the request, by what became of it. */
  function AfterRequest(c: Circuits, r: Request, reached: bool): Circuits {
    var checked := AfterCheck(c, r.app, r.asked);
    if !reached then checked
    else match r.fate
         case Responded => checked - {r.app}
         case Unreachable => AfterFailure(checked, r.app, r.ended)
         case Dropped => checked
  }

  lemma RequestTells(c: Circuits, h: seq<Request>, r: Request, now: Millis)
    requires Tells(c, h, r.app, now) && now <= r.asked <= r.ended
    ensures Tells(AfterRequest(c, r, Reaches(h, r)), h + [r], r.app, r.ended)
  {
    CheckTells(c, h, r, now);
    assert (h + [r])[..|h|] == h;
  }

  lemma OthersTell(c: Circuits, h: seq<Request>, r: Request, app: AppId, now: Millis)
    requires Tells(c, h, app, now) && now <= r.asked <= r.ended && app != r.app
    ensures Tells(AfterRequest(c, r, Reaches(h, r)), h + [r], app, r.ended)
  {
    assert (h + [r])[..|h|] == h;
  }
}
