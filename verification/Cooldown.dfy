/** Provider cooldown as a timed state machine: every writer of the cooldown fields as one atomic
    step on the repository, and what holds over all interleavings. Times are whole seconds. */
module Cooldown {
  import opened Router

  // The fields of a provider connection that the cooldown logic reads and writes.
  datatype Conn = Conn(status: string, cooldownUntil: Option<int>, backoffLevel: int, lastLatencyMs: int)

  type Repo = map<Id, Conn>

  function Marked(c: Conn, until: int): Conn {
    c.(status := "cooldown", cooldownUntil := Some(until))
  }

  function Cleared(c: Conn): Conn {
    c.(status := "active", cooldownUntil := None, backoffLevel := 0)
  }

  // The combo's backoff: 30 s, or 30 s a level up to 10 minutes.
  function Backoff(level: int): int {
    if level > 0 then (if level * 30 > 600 then 600 else level * 30) else 30
  }

  const DIRECT_BACKOFF := 60

  predicate CoolingDown(c: Conn, now: int) {
    c.status == "cooldown" && c.cooldownUntil.Some? && now < c.cooldownUntil.value
  }

  // A health probe that came back well, and one that did not.
  function Healthy(c: Conn, latencyMs: int, now: int): Conn {
    var c' := c.(lastLatencyMs := latencyMs);
    if c.status == "cooldown" && c.cooldownUntil.Some? && now > c.cooldownUntil.value
    then c'.(status := "active", cooldownUntil := None, backoffLevel := 0)
    else c'
  }

  function Unhealthy(c: Conn, now: int): Conn {
    var level := c.backoffLevel + 1;
    var c' := c.(backoffLevel := level);
    if level >= 3 then c'.(status := "cooldown", cooldownUntil := Some(now + level * 60)) else c'
  }

  // What each writer leaves of a connection, field by field.
  lemma WritersMean(c: Conn, until: int, latencyMs: int, now: int)
    ensures Marked(c, until) == Conn("cooldown", Some(until), c.backoffLevel, c.lastLatencyMs)
    ensures Cleared(c) == Conn("active", None, 0, c.lastLatencyMs)
    ensures Backoff(c.backoffLevel)
         == if c.backoffLevel < 2 then 30 else if c.backoffLevel < 20 then 30 * c.backoffLevel else 600
    ensures Healthy(c, latencyMs, now)
         == if c.status == "cooldown" && exists d :: c.cooldownUntil == Some(d) && d < now
            then Conn("active", None, 0, latencyMs)
            else Conn(c.status, c.cooldownUntil, c.backoffLevel, latencyMs)
    ensures Unhealthy(c, now)
         == if c.backoffLevel < 2 then Conn(c.status, c.cooldownUntil, c.backoffLevel + 1, c.lastLatencyMs)
            else Conn("cooldown", Some(now + 60 * (c.backoffLevel + 1)), c.backoffLevel + 1, c.lastLatencyMs)
  {
  }

  datatype State = State(repo: Repo, probes: map<nat, Id>)

  datatype Step =
    | ComboCall(id: Id, now: int)
    | ComboFailed(id: Id, now: int)
    | ComboSucceeded(id: Id, now: int)
    | DirectFailed(id: Id, now: int)
    | LatencyMeasured(id: Id, now: int, latencyMs: int)
    | ProbeStarted(id: Id, now: int, probe: nat)
    | ProbeOk(probe: nat, now: int, latencyMs: int)
    | ProbeFailed(probe: nat, now: int)
    | AdminStatus(id: Id, now: int, status: string)
    | AdminDelete(id: Id, now: int)

  // A combo step sends the request only if the provider exists and is not cooling down.
  predicate Calls(s: State, step: Step) {
    step.ComboCall? && step.id in s.repo && !CoolingDown(s.repo[step.id], step.now)
  }

  function With(s: State, id: Id, f: Conn -> Conn): State {
    if id in s.repo then s.(repo := s.repo[id := f(s.repo[id])]) else s
  }

  function Next(s: State, step: Step): State {
    match step
    case ComboCall(_, _) => s
    case ComboFailed(id, now) => With(s, id, (c: Conn) => Marked(c, now + Backoff(c.backoffLevel)))
    case ComboSucceeded(id, _) => With(s, id, (c: Conn) => Cleared(c))
    case DirectFailed(id, now) => With(s, id, (c: Conn) => Marked(c, now + DIRECT_BACKOFF))
    case LatencyMeasured(id, _, ms) => With(s, id, (c: Conn) => c.(lastLatencyMs := ms))
    case ProbeStarted(id, _, probe) =>
      // Only active providers are probed.
      if id in s.repo && s.repo[id].status == "active" && probe !in s.probes
      then s.(probes := s.probes[probe := id]) else s
    case ProbeOk(probe, now, ms) =>
      if probe !in s.probes then s
      else With(s.(probes := s.probes - {probe}), s.probes[probe], (c: Conn) => Healthy(c, ms, now))
    case ProbeFailed(probe, now) =>
      if probe !in s.probes then s
      else With(s.(probes := s.probes - {probe}), s.probes[probe], (c: Conn) => Unhealthy(c, now))
    case AdminStatus(id, _, status) => With(s, id, (c: Conn) => c.(status := status))
    case AdminDelete(id, _) => s.(repo := s.repo - {id})
  }

  function After(s: State, steps: seq<Step>): State {
    if steps == [] then s else Next(After(s, steps[..|steps|-1]), steps[|steps|-1])
  }

  ghost predicate Monotone(steps: seq<Step>) {
    forall i, j :: 0 <= i < j < |steps| ==> steps[i].now <= steps[j].now
  }

  // A success of a combo step, or an administrator, overrides a cooldown.
  predicate Overrides(step: Step, id: Id) {
    (step.ComboSucceeded? && step.id == id) || (step.AdminStatus? && step.id == id)
  }

  // Until `limit`, id is either gone or cooling down at least that long.
  ghost predicate Held(s: State, id: Id, limit: int) {
    id in s.repo ==>
      s.repo[id].status == "cooldown" && s.repo[id].cooldownUntil.Some? && s.repo[id].cooldownUntil.value >= limit
  }

  // Each combo deadline lies 30 to 600 seconds ahead.
  lemma ComboDeadline(s: State, id: Id, now: int)
    requires id in s.repo
    ensures var c := Next(s, ComboFailed(id, now)).repo[id];
            c.status == "cooldown" && c.cooldownUntil.Some? && now + 30 <= c.cooldownUntil.value <= now + 600
  {
    var level := s.repo[id].backoffLevel;
    assert level > 0 ==> level * 30 >= 30;
  }

  // Every combo step on id before `limit` is refused.
  ghost predicate Refuses(s: State, id: Id, limit: int) {
    forall now | now < limit :: !Calls(s, ComboCall(id, now))
  }

  lemma HeldIsRefused(s: State, id: Id, limit: int)
    ensures Held(s, id, limit) <==> Refuses(s, id, limit)
  {
    if Refuses(s, id, limit) {
      assert !Calls(s, ComboCall(id, limit - 1));
    }
  }

  // Held to `limit`, and any backoff counted from t on would reach it as well.
  ghost predicate Firm(s: State, id: Id, t: int, limit: int) {
    Held(s, id, limit) && (id in s.repo ==> t + Backoff(s.repo[id].backoffLevel) >= limit)
  }

  // A direct request fails on id so early that its own deadline lies before `limit`.
  predicate CutsShort(s: State, step: Step, id: Id, limit: int) {
    step.DirectFailed? && step.id == id && id in s.repo && step.now + DIRECT_BACKOFF < limit
  }

  lemma FirmStep(s: State, id: Id, t: int, limit: int, step: Step)
    requires Firm(s, id, t, limit) && t <= step.now < limit && !Overrides(step, id)
    ensures !CutsShort(s, step, id, limit) ==> Firm(Next(s, step), id, t, limit)
    ensures CutsShort(s, step, id, limit) ==> !Held(Next(s, step), id, limit)
  {
  }

  // While t + 30 lies ahead, no other step brings a cooldown that reaches it below it.
  lemma HeldStep(s: State, id: Id, t: int, step: Step)
    requires Held(s, id, t + 30) && t <= step.now < t + 30 && !Overrides(step, id)
    ensures Held(Next(s, step), id, t + 30)
  {
    FirmStep(s, id, t, t + 30, step);
  }

  lemma {:induction false} FirmUntil(start: State, id: Id, t: int, limit: int, steps: seq<Step>, i: nat, j: nat)
    requires i <= j <= |steps| && Firm(After(start, steps[..i]), id, t, limit)
    requires forall k :: i <= k < j ==> t <= steps[k].now < limit && !Overrides(steps[k], id)
    requires forall k :: i <= k < j ==> !CutsShort(After(start, steps[..k]), steps[k], id, limit)
    ensures Firm(After(start, steps[..j]), id, t, limit)
    decreases j
  {
    if i < j {
      FirmUntil(start, id, t, limit, steps, i, j - 1);
      FirmMore(start, id, t, limit, steps, j - 1);
    }
  }

  lemma FirmMore(start: State, id: Id, t: int, limit: int, steps: seq<Step>, n: nat)
    requires n < |steps| && t <= steps[n].now < limit && !Overrides(steps[n], id)
    requires Firm(After(start, steps[..n]), id, t, limit) && !CutsShort(After(start, steps[..n]), steps[n], id, limit)
    ensures Firm(After(start, steps[..n+1]), id, t, limit)
  {
    FirmStep(After(start, steps[..n]), id, t, limit, steps[n]);
    OneMore(start, steps, n);
  }

  lemma OneMore(start: State, steps: seq<Step>, n: nat)
    requires n < |steps|
    ensures After(start, steps[..n+1]) == Next(After(start, steps[..n]), steps[n])
  {
    assert steps[..n+1][..n] == steps[..n];
  }

  lemma CutIsNotRefused(s: State, step: Step, id: Id, limit: int)
    requires CutsShort(s, step, id, limit)
    ensures !Refuses(Next(s, step), id, limit)
  {
    HeldIsRefused(Next(s, step), id, limit);
  }

  lemma FailureIsFirm(before: State, id: Id, t: int, limit: int)
    requires id in before.repo ==> limit <= t + Backoff(before.repo[id].backoffLevel)
    ensures Firm(Next(before, ComboFailed(id, t)), id, t, limit)
  {
  }

  // The combo's own deadline, which depends on the backoff level at the failure, is kept
  // exactly when no direct request cuts it short: over any run between the failure and that
  // deadline, without overrides, combo steps are refused until the deadline after every step
  // if and only if no direct request on the provider fails more than a minute before it.
  lemma DeadlineIsKeptIff(before: State, id: Id, t: int, limit: int, steps: seq<Step>)
    requires id in before.repo && limit == t + Backoff(before.repo[id].backoffLevel)
    requires forall i :: 0 <= i < |steps| ==> t <= steps[i].now < limit && !Overrides(steps[i], id)
    ensures var failed := Next(before, ComboFailed(id, t));
            ((forall n :: 0 <= n <= |steps| ==> Refuses(After(failed, steps[..n]), id, limit))
             <==> (forall n :: 0 <= n < |steps| ==> !CutsShort(After(failed, steps[..n]), steps[n], id, limit)))
  {
    FailureIsFirm(before, id, t, limit);
    RefusedIff(Next(before, ComboFailed(id, t)), id, t, limit, steps);
  }

  lemma RefusedIff(s: State, id: Id, t: int, limit: int, steps: seq<Step>)
    requires Firm(s, id, t, limit)
    requires forall i :: 0 <= i < |steps| ==> t <= steps[i].now < limit && !Overrides(steps[i], id)
    ensures (forall n :: 0 <= n <= |steps| ==> Refuses(After(s, steps[..n]), id, limit))
       <==> (forall n :: 0 <= n < |steps| ==> !CutsShort(After(s, steps[..n]), steps[n], id, limit))
  {
    if n :| 0 <= n < |steps| && CutsShort(After(s, steps[..n]), steps[n], id, limit) {
      CutIsNotRefused(After(s, steps[..n]), steps[n], id, limit);
      OneMore(s, steps, n);
    } else {
      forall n | 0 <= n <= |steps|
        ensures Refuses(After(s, steps[..n]), id, limit)
      {
        FirmUntil(s, id, t, limit, steps, 0, n);
        HeldIsRefused(After(s, steps[..n]), id, limit);
      }
    }
  }

  // So, at any place of any run: after a combo step fails on a stored provider, no combo step
  // calls it before the deadline of its backoff level, unless that deadline is overridden or
  // cut short in between.
  lemma NoCallBeforeDeadline(start: State, steps: seq<Step>, i: nat, j: nat, limit: int)
    requires Monotone(steps) && i < j < |steps|
    requires steps[i].ComboFailed? && steps[j].ComboCall? && steps[j].id == steps[i].id
    requires var s := After(start, steps[..i]);
             steps[i].id in s.repo && limit == steps[i].now + Backoff(s.repo[steps[i].id].backoffLevel)
    requires forall k :: i < k < j ==> !Overrides(steps[k], steps[i].id)
    requires forall k :: i < k < j ==> !CutsShort(After(start, steps[..k]), steps[k], steps[i].id, limit)
    ensures Calls(After(start, steps[..j]), steps[j]) ==> steps[j].now >= limit
  {
    FailureIsFirm(After(start, steps[..i]), steps[i].id, steps[i].now, limit);
    OneMore(start, steps, i);
    NoCallWhileFirm(start, steps, i, j, limit);
  }

  lemma NoCallWhileFirm(start: State, steps: seq<Step>, i: nat, j: nat, limit: int)
    requires Monotone(steps) && i < j < |steps|
    requires steps[i].ComboFailed? && steps[j].ComboCall? && steps[j].id == steps[i].id
    requires Firm(After(start, steps[..i+1]), steps[i].id, steps[i].now, limit)
    requires forall k :: i < k < j ==> !Overrides(steps[k], steps[i].id)
    requires forall k :: i < k < j ==> !CutsShort(After(start, steps[..k]), steps[k], steps[i].id, limit)
    ensures Calls(After(start, steps[..j]), steps[j]) ==> steps[j].now >= limit
  {
    if steps[j].now < limit {
      FirmUntil(start, steps[i].id, steps[i].now, limit, steps, i + 1, j);
      HeldIsRefused(After(start, steps[..j]), steps[i].id, limit);
      RefusedCall(After(start, steps[..j]), steps[j], steps[i].id, limit);
    }
  }

  // No direct request can cut the first 30 seconds short: after a combo step fails on a provider
  // at time t, no combo step calls it before t + 30, whatever direct requests, latency updates,
  // health probes and deletions come between, unless a success or an administrator overrides
  // the cooldown.
  lemma NoCallDuringBackoff(start: State, steps: seq<Step>, i: nat, j: nat)
    requires Monotone(steps) && i < j < |steps|
    requires steps[i].ComboFailed? && steps[j].ComboCall? && steps[j].id == steps[i].id
    requires forall k :: i < k < j ==> !Overrides(steps[k], steps[i].id)
    requires Calls(After(start, steps[..j]), steps[j])
    ensures steps[j].now >= steps[i].now + 30
  {
    FailureIsFirm(After(start, steps[..i]), steps[i].id, steps[i].now, steps[i].now + 30);
    OneMore(start, steps, i);
    NoCallWhileFirm(start, steps, i, j, steps[i].now + 30);
  }

  lemma RefusedCall(s: State, step: Step, id: Id, limit: int)
    requires Refuses(s, id, limit) && step.ComboCall? && step.id == id && step.now < limit
    ensures !Calls(s, step)
  {
    assert step == ComboCall(id, step.now);
  }

  // A run from a connection as it is created, by which a combo's backoff of 90 seconds ends
  // after 61: three bad probes raise the level, an administrator reactivates the provider, a
  // combo step fails on it at time 10, and a direct request does at 11.
  lemma BackoffCanBeCutShort(lastLatencyMs: int)
    ensures var start := State(map["p" := Conn("active", None, 0, lastLatencyMs)], map[]);
            var steps := ThreeBadProbes() + [AdminStatus("p", 9, "active"), ComboFailed("p", 10)];
            && "p" in After(start, steps).repo
            && After(start, steps).repo["p"].cooldownUntil == Some(100)
            && Calls(After(start, steps + [DirectFailed("p", 11)]), ComboCall("p", 71))
  {
    var start := State(map["p" := Conn("active", None, 0, lastLatencyMs)], map[]);
    var tail := [AdminStatus("p", 9, "active"), ComboFailed("p", 10)];
    BadProbes(lastLatencyMs);
    var probed := After(start, ThreeBadProbes());
    AfterConcat(start, ThreeBadProbes(), tail);
    AfterFirst(probed, tail);
    assert tail[1..] == [ComboFailed("p", 10)];
    AfterOne(Next(probed, tail[0]), ComboFailed("p", 10));
    AfterConcat(start, ThreeBadProbes() + tail, [DirectFailed("p", 11)]);
    AfterOne(After(start, ThreeBadProbes() + tail), DirectFailed("p", 11));
  }

  function BadProbe(probe: nat, now: int): seq<Step> {
    [ProbeStarted("p", now, probe), ProbeFailed(probe, now + 1)]
  }

  function ThreeBadProbes(): seq<Step> { BadProbe(1, 1) + BadProbe(2, 3) + BadProbe(3, 5) }

  lemma BadProbes(lastLatencyMs: int)
    ensures After(State(map["p" := Conn("active", None, 0, lastLatencyMs)], map[]), ThreeBadProbes())
         == State(map["p" := Conn("cooldown", Some(186), 3, lastLatencyMs)], map[])
  {
    var c := Conn("active", None, 0, lastLatencyMs);
    var s := State(map["p" := c], map[]);
    AfterBadProbe(c, 1, 1);
    AfterBadProbe(Unhealthy(c, 2), 2, 3);
    AfterBadProbe(Unhealthy(Unhealthy(c, 2), 4), 3, 5);
    AfterConcat(s, BadProbe(1, 1) + BadProbe(2, 3), BadProbe(3, 5));
    AfterConcat(s, BadProbe(1, 1), BadProbe(2, 3));
  }

  lemma AfterBadProbe(c: Conn, probe: nat, now: int)
    requires c.status == "active"
    ensures After(State(map["p" := c], map[]), BadProbe(probe, now)) == State(map["p" := Unhealthy(c, now + 1)], map[])
  {
    var s, steps := State(map["p" := c], map[]), BadProbe(probe, now);
    AfterFirst(s, steps);
    assert steps[1..] == [steps[1]];
    AfterOne(Next(s, steps[0]), steps[1]);
    assert map[probe := "p"] - {probe} == map[];
  }

  lemma AfterOne(s: State, step: Step)
    ensures After(s, [step]) == Next(s, step)
  {
    assert [step][..0] == [];
  }

  lemma AfterFirst(s: State, steps: seq<Step>)
    requires steps != []
    ensures After(s, steps) == After(Next(s, steps[0]), steps[1..])
  {
    assert steps == [steps[0]] + steps[1..];
    AfterConcat(s, [steps[0]], steps[1..]);
    AfterOne(s, steps[0]);
  }

  lemma {:induction false} AfterConcat(s: State, a: seq<Step>, b: seq<Step>)
    ensures After(s, a + b) == After(After(s, a), b)
  {
    if b == [] {
      assert a + b == a;
    } else {
      AfterConcat(s, a, b[..|b|-1]);
      assert (a + b)[..|a + b| - 1] == a + b[..|b|-1];
    }
  }

  // No probe of id is running.
  ghost predicate Unprobed(s: State, id: Id) {
    forall probe | probe in s.probes :: s.probes[probe] != id
  }

  // id is out of the router's reach, if it is stored at all.
  ghost predicate Cooling(s: State, id: Id) {
    id in s.repo ==> s.repo[id].status == "cooldown"
  }

  // A time-ordered run from `now` on in which nobody overrides the cooldown of id.
  ghost predicate Quiet(steps: seq<Step>, id: Id, now: int) {
    Monotone(steps) && forall k :: 0 <= k < |steps| ==> steps[k].now >= now && !Overrides(steps[k], id)
  }

  // Without a running probe, cooldown does not end by itself: the provider stays out of the
  // router's reach, at any later time, until a combo step succeeds on it or an administrator sets
  // its status. The health monitor probes active providers only.
  lemma {:induction false} CooldownIsSticky(s: State, id: Id, steps: seq<Step>)
    requires Cooling(s, id) && Unprobed(s, id)
    requires forall k :: 0 <= k < |steps| ==> !Overrides(steps[k], id)
    ensures Cooling(After(s, steps), id) && Unprobed(After(s, steps), id)
  {
    if steps != [] {
      CooldownIsSticky(s, id, steps[..|steps|-1]);
      StickyStep(After(s, steps[..|steps|-1]), id, steps[|steps|-1]);
    }
  }

  lemma StickyStep(s: State, id: Id, step: Step)
    requires Cooling(s, id) && Unprobed(s, id) && !Overrides(step, id)
    ensures Cooling(Next(s, step), id) && Unprobed(Next(s, step), id)
  {
    assert "cooldown"[0] != "active"[0];
  }

  // Probes that may take any time can end it: a cooldown outlasts every quiet run if and only if
  // no probe of the provider is running.
  lemma StickyIff(s: State, id: Id, now: int)
    requires id in s.repo && s.repo[id].status == "cooldown"
    ensures (forall steps :: Quiet(steps, id, now) ==> Cooling(After(s, steps), id)) <==> Unprobed(s, id)
  {
    if Unprobed(s, id) {
      forall steps | Quiet(steps, id, now)
        ensures Cooling(After(s, steps), id)
      {
        CooldownIsSticky(s, id, steps);
      }
    } else {
      var probe :| probe in s.probes && s.probes[probe] == id;
      SlowProbeEndsCooldown(s, id, probe, now);
    }
  }

  lemma SlowProbeEndsCooldown(s: State, id: Id, probe: nat, now: int)
    requires id in s.repo && probe in s.probes && s.probes[probe] == id
    ensures var steps := [DirectFailed(id, now), ProbeOk(probe, now + DIRECT_BACKOFF + 1, 0)];
            Quiet(steps, id, now) && !Cooling(After(s, steps), id)
  {
    var steps := [DirectFailed(id, now), ProbeOk(probe, now + DIRECT_BACKOFF + 1, 0)];
    AfterFirst(s, steps);
    assert steps[1..] == [steps[1]];
    AfterOne(Next(s, steps[0]), steps[1]);
    assert "cooldown"[0] != "active"[0];
  }

  // ---- Probes that end in time ----

  // When the running probes have started.
  function StartTimes(start: State, steps: seq<Step>): map<nat, int> {
    if steps == [] then map[]
    else
      var front, step := steps[..|steps|-1], steps[|steps|-1];
      Started(After(start, front), StartTimes(start, front), step)
  }

  function Started(s: State, times: map<nat, int>, step: Step): map<nat, int> {
    if step.ProbeStarted? && step.probe !in s.probes && step.probe in Next(s, step).probes
    then times[step.probe := step.now] else times
  }

  // A probe that comes back well does so within `limit` seconds of its start.
  predicate InTime(s: State, times: map<nat, int>, step: Step, limit: int) {
    step.ProbeOk? && step.probe in s.probes && step.probe in times ==> step.now <= times[step.probe] + limit
  }

  // What happens on a server: it starts without probes, its clock does not run backwards, an
  // administrator enables and disables providers, and probes that come back well do so in time.
  ghost predicate Served(start: State, steps: seq<Step>, limit: int) {
    && start.probes == map[] && Monotone(steps)
    && (forall n :: 0 <= n < |steps| ==> !(steps[n].AdminStatus? && steps[n].status == "cooldown"))
    && (forall n :: 0 <= n < |steps| ==>
          InTime(After(start, steps[..n]), StartTimes(start, steps[..n]), steps[n], limit))
  }

  // A cooldown of a provider under a running probe lasts until 30 s after the start of the probe:
  // providers are probed while active, so the cooldown has begun since.
  ghost predicate Outlasts(s: State, times: map<nat, int>, now: int) {
    forall probe | probe in s.probes ::
      probe in times && times[probe] <= now && EndsNotBefore(s, s.probes[probe], times[probe] + 30)
  }

  ghost predicate EndsNotBefore(s: State, id: Id, limit: int) {
    id in s.repo && s.repo[id].status == "cooldown" && s.repo[id].cooldownUntil.Some? ==>
      s.repo[id].cooldownUntil.value >= limit
  }

  lemma OutlastsNext(s: State, times: map<nat, int>, now: int, step: Step)
    requires Outlasts(s, times, now) && now <= step.now && !(step.AdminStatus? && step.status == "cooldown")
    ensures Outlasts(Next(s, step), Started(s, times, step), step.now)
  {
    assert "cooldown"[0] != "active"[0];
  }

  lemma {:induction false} RunsOutlast(start: State, steps: seq<Step>, now: int)
    requires start.probes == map[] && Monotone(steps)
    requires forall n :: 0 <= n < |steps| ==>
               steps[n].now <= now && !(steps[n].AdminStatus? && steps[n].status == "cooldown")
    ensures Outlasts(After(start, steps), StartTimes(start, steps), now)
  {
    if steps != [] {
      var front, step := steps[..|steps|-1], steps[|steps|-1];
      RunsOutlast(start, front, step.now);
      OutlastsNext(After(start, front), StartTimes(start, front), step.now, step);
    }
  }

  // Only the latencies may differ.
  ghost predicate SameButLatency(before: Repo, after: Repo) {
    before.Keys == after.Keys
    && forall id | id in before :: after[id] == before[id].(lastLatencyMs := after[id].lastLatencyMs)
  }

  // The health monitor never ends a cooldown: from any stored connections, over any run of a
  // server whose probes come back within 30 seconds (its client gives up after 10), a good probe
  // writes the latency of its provider and nothing else.
  lemma ProbesEndNoCooldown(start: State, steps: seq<Step>, n: nat, limit: int)
    requires Served(start, steps, limit) && limit <= 30
    requires n < |steps| && steps[n].ProbeOk?
    ensures SameButLatency(After(start, steps[..n]).repo, After(start, steps[..n+1]).repo)
  {
    RunsOutlast(start, steps[..n], steps[n].now);
    OneMore(start, steps, n);
    GoodProbe(After(start, steps[..n]), StartTimes(start, steps[..n]), steps[n], limit);
  }

  lemma GoodProbe(s: State, times: map<nat, int>, step: Step, limit: int)
    requires step.ProbeOk? && Outlasts(s, times, step.now) && InTime(s, times, step, limit) && limit <= 30
    ensures SameButLatency(s.repo, Next(s, step).repo)
  {
  }

  // So on a server cooldown is sticky whatever probes are running, and the router's demand fails
  // throughout.
  lemma CooldownLasts(start: State, steps: seq<Step>, id: Id, i: nat, j: nat, limit: int)
    requires Served(start, steps, limit) && limit <= 30
    requires i <= j <= |steps| && Cooling(After(start, steps[..i]), id)
    requires forall k :: i <= k < j ==> !Overrides(steps[k], id)
    ensures Cooling(After(start, steps[..j]), id)
  {
    forall k | i <= k < j && steps[k].ProbeOk?
      ensures SameButLatency(After(start, steps[..k]).repo, After(start, steps[..k+1]).repo)
    {
      ProbesEndNoCooldown(start, steps, k, limit);
    }
    CoolingThrough(start, steps, id, i, j);
  }

  lemma {:induction false} CoolingThrough(start: State, steps: seq<Step>, id: Id, i: nat, j: nat)
    requires i <= j <= |steps| && Cooling(After(start, steps[..i]), id)
    requires forall k :: i <= k < j ==> !Overrides(steps[k], id)
    requires forall k :: i <= k < j && steps[k].ProbeOk? ==>
               SameButLatency(After(start, steps[..k]).repo, After(start, steps[..k+1]).repo)
    ensures Cooling(After(start, steps[..j]), id)
    decreases j
  {
    if i < j {
      CoolingThrough(start, steps, id, i, j - 1);
      OneMore(start, steps, j - 1);
      if !steps[j-1].ProbeOk? {
        NoOtherStepEnds(After(start, steps[..j-1]), id, steps[j-1]);
      }
    }
  }

  lemma NoOtherStepEnds(s: State, id: Id, step: Step)
    requires Cooling(s, id) && !Overrides(step, id) && !step.ProbeOk?
    ensures Cooling(Next(s, step), id)
  {
  }

  lemma StickyMeansUnroutable(start: State, steps: seq<Step>, i: nat, j: nat, limit: int, p: Provider, now: int)
    requires Served(start, steps, limit) && limit <= 30
    requires i <= j <= |steps| && Cooling(After(start, steps[..i]), p.id)
    requires forall k :: i <= k < j ==> !Overrides(steps[k], p.id)
    requires var s := After(start, steps[..j]); p.id in s.repo && p.status == s.repo[p.id].status
    ensures !Ready(p, now)
  {
    CooldownLasts(start, steps, p.id, i, j, limit);
    assert "cooldown"[0] != "active"[0];
  }

  ghost predicate ProbesAreHarmless(start: State, steps: seq<Step>) {
    forall n :: 0 <= n < |steps| && steps[n].ProbeOk? ==>
      SameButLatency(After(start, steps[..n]).repo, After(start, steps[..n+1]).repo)
  }

  // Thirty seconds is the exact bound: with any longer time limit a good probe can end a cooldown.
  lemma ThirtySecondsIsExact(limit: int)
    ensures (forall start, steps :: Served(start, steps, limit) ==> ProbesAreHarmless(start, steps)) <==> limit <= 30
  {
    if limit <= 30 {
      forall start: State, steps: seq<Step> | Served(start, steps, limit)
        ensures ProbesAreHarmless(start, steps)
      {
        forall n | 0 <= n < |steps| && steps[n].ProbeOk?
          ensures SameButLatency(After(start, steps[..n]).repo, After(start, steps[..n+1]).repo)
        {
          ProbesEndNoCooldown(start, steps, n, limit);
        }
      }
    } else {
      LateProbeEndsCooldown(0, limit);
      var start := State(map["p" := Conn("active", None, 0, 0)], map[]);
      var steps := [ProbeStarted("p", 0, 1), ComboFailed("p", 0), ProbeOk(1, 31, 0)];
      assert steps[..3] == steps && steps[2].ProbeOk?;
      assert !SameButLatency(After(start, steps[..2]).repo, After(start, steps[..2+1]).repo);
    }
  }

  lemma LateProbeEndsCooldown(lastLatencyMs: int, limit: int)
    requires limit >= 31
    ensures var start := State(map["p" := Conn("active", None, 0, lastLatencyMs)], map[]);
            var steps := [ProbeStarted("p", 0, 1), ComboFailed("p", 0), ProbeOk(1, 31, 0)];
            && Served(start, steps, limit) && "p" in After(start, steps).repo
            && Cooling(After(start, steps[..2]), "p") && !Cooling(After(start, steps), "p")
  {
    var start := State(map["p" := Conn("active", None, 0, lastLatencyMs)], map[]);
    var steps := [ProbeStarted("p", 0, 1), ComboFailed("p", 0), ProbeOk(1, 31, 0)];
    OneMore(start, steps, 0);
    OneMore(start, steps, 1);
    OneMore(start, steps, 2);
    assert steps[..0] == [] && steps[..3] == steps;
    assert steps[..1][..0] == [] && steps[..2][..1] == steps[..1];
    assert StartTimes(start, steps[..1]) == map[1 := 0];
    assert StartTimes(start, steps[..2]) == map[1 := 0];
    assert "cooldown"[0] != "active"[0];
  }
}
