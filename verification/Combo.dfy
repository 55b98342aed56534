/** The provider repository as shared, mutable records, and the combo's fallback chain over it. */
module Combo {
  import opened Router
  import opened Cooldown

  // One stored connection; the repository hands out the record itself.
  class ProviderConnection {
    const id: Id
    var status: string
    var cooldownUntil: Option<int>
    var backoffLevel: int
    var lastLatencyMs: int

    constructor (id: Id, c: Conn)
      ensures this.id == id && Contents() == c
    {
      this.id := id;
      status, cooldownUntil, backoffLevel, lastLatencyMs := c.status, c.cooldownUntil, c.backoffLevel, c.lastLatencyMs;
    }

    function Contents(): Conn
      reads this
    {
      Conn(status, cooldownUntil, backoffLevel, lastLatencyMs)
    }
  }

  class ProviderRepo {
    var providers: map<Id, ProviderConnection>
    ghost var state: Repo
    ghost var Repr: set<ProviderConnection>

    ghost predicate Valid()
      reads this, Repr
    {
      && providers.Keys == state.Keys
      && (forall k | k in providers :: providers[k] in Repr && providers[k].id == k
            && providers[k].Contents() == state[k])
    }

    // Every record but that of id is as state says.
    ghost predicate ValidBut(id: Id)
      reads this, Repr
    {
      && providers.Keys == state.Keys
      && (forall k | k in providers :: providers[k] in Repr && providers[k].id == k)
      && (forall k | k in providers && k != id :: providers[k].Contents() == state[k])
    }

    ghost method Commit(id: Id, c: Conn)
      requires ValidBut(id) && id in providers && providers[id].Contents() == c
      modifies this`state
      ensures Valid() && state == old(state)[id := c]
    {
      state := state[id := c];
    }

    constructor ()
      ensures Valid() && state == map[] && Repr == {}
    {
      providers, state, Repr := map[], map[], {};
    }

    method MarkCooldown(id: Id, until: int)
      requires Valid()
      modifies this`state, Repr
      ensures Valid()
      ensures state == if id in old(state) then old(state)[id := Marked(old(state)[id], until)] else old(state)
    {
      if id in providers {
        var conn := providers[id];
        conn.status := "cooldown";
        conn.cooldownUntil := Some(until);
        Commit(id, conn.Contents());
      }
    }

    method ClearCooldown(id: Id)
      requires Valid()
      modifies this`state, Repr
      ensures Valid()
      ensures state == if id in old(state) then old(state)[id := Cleared(old(state)[id])] else old(state)
    {
      if id in providers {
        var conn := providers[id];
        conn.status := "active";
        conn.cooldownUntil := None;
        conn.backoffLevel := 0;
        Commit(id, conn.Contents());
      }
    }

    method UpdateLatency(id: Id, latencyMs: int)
      requires Valid()
      modifies this`state, Repr
      ensures Valid()
      ensures state == if id in old(state) then old(state)[id := old(state)[id].(lastLatencyMs := latencyMs)]
                       else old(state)
    {
      if id in providers {
        var p := providers[id];
        p.lastLatencyMs := latencyMs;
        Commit(id, p.Contents());
      }
    }

    method UpdateStatus(id: Id, status: string)
      requires Valid()
      modifies this`state, Repr
      ensures Valid()
      ensures state == if id in old(state) then old(state)[id := old(state)[id].(status := status)] else old(state)
    {
      if id in providers {
        var conn := providers[id];
        conn.status := status;
        Commit(id, conn.Contents());
      }
    }

    // The health monitor's two outcomes.
    method RecordSuccess(id: Id, latencyMs: int, now: int)
      requires Valid()
      modifies this`state, Repr
      ensures Valid()
      ensures state == if id in old(state) then old(state)[id := Healthy(old(state)[id], latencyMs, now)]
                       else old(state)
    {
      if id in providers {
        var p := providers[id];
        p.lastLatencyMs := latencyMs;
        if p.status == "cooldown" && p.cooldownUntil.Some? && now > p.cooldownUntil.value {
          p.status := "active";
          p.cooldownUntil := None;
          p.backoffLevel := 0;
        }
        Commit(id, p.Contents());
      }
    }

    static method Fail(p: ProviderConnection, now: int)
      modifies p
      ensures p.Contents() == Unhealthy(old(p.Contents()), now)
    {
      p.backoffLevel := p.backoffLevel + 1;
      if p.backoffLevel >= 3 {
        p.status := "cooldown";
        p.cooldownUntil := Some(now + p.backoffLevel * 60);
      }
    }

    method RecordFailure(id: Id, now: int)
      requires Valid()
      modifies this`state, Repr
      ensures Valid()
      ensures state == if id in old(state) then old(state)[id := Unhealthy(old(state)[id], now)] else old(state)
    {
      if id in providers {
        var p := providers[id];
        Fail(p, now);
        Commit(id, p.Contents());
      }
    }
  }

  // What the world answers when an item is tried, and when it is tried and answered.
  datatype Outcome = NoAdapter | BadSecret | BadTranslation | NetworkError | Http(code: int) | Unparsable | Reply
  datatype Attempt = Attempt(outcome: Outcome, start: int, finish: int)

  datatype ItemResult = ItemResult(success: bool, fallbackEligible: bool, cause: Cause)
  datatype Cause = Answered | NotFound | InCooldown | Prepared(outcome: Outcome) | Upstream(outcome: Outcome)

  // The requests that count against the provider.
  predicate Blames(o: Outcome) {
    o.NetworkError? || (o.Http? && (o.code == 429 || o.code >= 500))
  }

  function ResultOf(repo: Repo, id: Id, a: Attempt): ItemResult {
    if id !in repo then ItemResult(false, true, NotFound)
    else if CoolingDown(repo[id], a.start) then ItemResult(false, true, InCooldown)
    else match a.outcome
      case NoAdapter => ItemResult(false, true, Prepared(a.outcome))
      case BadSecret => ItemResult(false, true, Prepared(a.outcome))
      case BadTranslation => ItemResult(false, true, Prepared(a.outcome))
      case NetworkError => ItemResult(false, true, Upstream(a.outcome))
      case Http(code) =>
        if code >= 400 then ItemResult(false, code == 429 || code >= 500, Upstream(a.outcome))
        else ItemResult(true, false, Answered)
      case Unparsable => ItemResult(false, true, Upstream(a.outcome))
      case Reply => ItemResult(true, false, Answered)
  }

  // The atomic steps that trying an item contributes to a run.
  function StepsOf(repo: Repo, id: Id, a: Attempt): seq<Step> {
    var result := ResultOf(repo, id, a);
    if result.cause.Upstream? && Blames(a.outcome) then [ComboCall(id, a.start), ComboFailed(id, a.finish)]
    else if result.cause.Upstream? then [ComboCall(id, a.start)]
    else if result.success then [ComboCall(id, a.start), ComboSucceeded(id, a.finish)]
    else []
  }

  // What they do to the repository.
  function RepoAfter(repo: Repo, id: Id, a: Attempt): Repo {
    var result := ResultOf(repo, id, a);
    if result.cause.Upstream? && Blames(a.outcome) then
      repo[id := Marked(repo[id], a.finish + Backoff(repo[id].backoffLevel))]
    else if result.success then repo[id := Cleared(repo[id])]
    else repo
  }

  lemma ItemIsARun(repo: Repo, probes: map<nat, Id>, id: Id, a: Attempt)
    ensures After(State(repo, probes), StepsOf(repo, id, a)) == State(RepoAfter(repo, id, a), probes)
  {
    var s, steps := State(repo, probes), StepsOf(repo, id, a);
    if steps != [] {
      AfterFirst(s, steps);
      assert Next(s, steps[0]) == s;
      if |steps| == 2 {
        assert steps[1..] == [steps[1]];
        AfterOne(s, steps[1]);
      } else {
        assert steps[1..] == [];
      }
    }
  }

  // What Execute returns, latency and message texts aside.
  datatype Response = Response(success: bool, cause: Option<Cause>, fallbackCount: nat)

  // The chain from item i on, with fallbackCount fallbacks so far.
  function Chain(repo: Repo, items: seq<Id>, attempts: seq<Attempt>, i: nat, fallbackCount: nat): (Repo, Response)
    requires i < |items| == |attempts|
    decreases |items| - i
  {
    var result := ResultOf(repo, items[i], attempts[i]);
    var repo' := RepoAfter(repo, items[i], attempts[i]);
    if result.success then (repo', Response(true, Some(result.cause), fallbackCount))
    else if !result.fallbackEligible then (repo', Response(false, Some(result.cause), fallbackCount))
    else if i == |items| - 1 then (repo', Response(false, None, fallbackCount))
    else Chain(repo', items, attempts, i + 1, fallbackCount + 1)
  }

  // The repository after the first n items have been tried.
  function RepoBefore(repo: Repo, items: seq<Id>, attempts: seq<Attempt>, n: nat): Repo
    requires n <= |items| == |attempts|
  {
    if n == 0 then repo else RepoAfter(RepoBefore(repo, items, attempts, n - 1), items[n-1], attempts[n-1])
  }

  function ResultAt(repo: Repo, items: seq<Id>, attempts: seq<Attempt>, n: nat): ItemResult
    requires n < |items| == |attempts|
  {
    ResultOf(RepoBefore(repo, items, attempts, n), items[n], attempts[n])
  }

  ghost predicate FallsBack(repo: Repo, items: seq<Id>, attempts: seq<Attempt>, n: nat)
    requires n < |items| == |attempts|
  {
    var r := ResultAt(repo, items, attempts, n);
    !r.success && r.fallbackEligible
  }

  // Each of the first n items failed in a way that allows falling back.
  ghost predicate AllFallBack(repo: Repo, items: seq<Id>, attempts: seq<Attempt>, n: nat)
    requires n <= |items| == |attempts|
  {
    n == 0 || (FallsBack(repo, items, attempts, n - 1) && AllFallBack(repo, items, attempts, n - 1))
  }

  // The items up to fallbackCount were tried: all before that one failed in a way that allows
  // falling back; that one succeeded, failed for good, or was the last.
  ghost predicate TriedPrefix(repo: Repo, items: seq<Id>, attempts: seq<Attempt>, repo': Repo, response: Response)
    requires |items| == |attempts|
  {
    var last := response.fallbackCount;
    && last < |items|
    && AllFallBack(repo, items, attempts, last)
    && repo' == RepoBefore(repo, items, attempts, last + 1)
    && Concludes(ResultAt(repo, items, attempts, last), response, last == |items| - 1)
  }

  ghost predicate Concludes(r: ItemResult, response: Response, isLast: bool) {
    && response.success == r.success
    && if !r.success && r.fallbackEligible then isLast && response.cause == None else response.cause == Some(r.cause)
  }

  lemma ChainTriesPrefix(repo: Repo, items: seq<Id>, attempts: seq<Attempt>)
    requires 0 < |items| == |attempts|
    ensures var (repo', response) := Chain(repo, items, attempts, 0, 0);
            TriedPrefix(repo, items, attempts, repo', response)
  {
    ChainFrom(repo, items, attempts, 0);
  }

  lemma {:induction false} ChainFrom(repo: Repo, items: seq<Id>, attempts: seq<Attempt>, i: nat)
    requires i < |items| == |attempts|
    requires AllFallBack(repo, items, attempts, i)
    ensures var (repo', response) := Chain(RepoBefore(repo, items, attempts, i), items, attempts, i, i);
            TriedPrefix(repo, items, attempts, repo', response)
    decreases |items| - i
  {
    if i < |items| - 1 && FallsBack(repo, items, attempts, i) {
      ChainStep(repo, items, attempts, i);
      ChainFrom(repo, items, attempts, i + 1);
    } else {
      ChainEnds(repo, items, attempts, i);
    }
  }

  lemma ChainStep(repo: Repo, items: seq<Id>, attempts: seq<Attempt>, i: nat)
    requires i + 1 < |items| == |attempts| && FallsBack(repo, items, attempts, i)
    ensures Chain(RepoBefore(repo, items, attempts, i), items, attempts, i, i)
         == Chain(RepoBefore(repo, items, attempts, i + 1), items, attempts, i + 1, i + 1)
  {
    assert RepoBefore(repo, items, attempts, i + 1)
        == RepoAfter(RepoBefore(repo, items, attempts, i), items[i], attempts[i]);
  }

  lemma ChainEnds(repo: Repo, items: seq<Id>, attempts: seq<Attempt>, i: nat)
    requires i < |items| == |attempts|
    requires AllFallBack(repo, items, attempts, i)
    requires !FallsBack(repo, items, attempts, i) || i == |items| - 1
    ensures var (repo', response) := Chain(RepoBefore(repo, items, attempts, i), items, attempts, i, i);
            TriedPrefix(repo, items, attempts, repo', response)
  {
    var before, r := RepoBefore(repo, items, attempts, i), ResultAt(repo, items, attempts, i);
    var (repo', response) := Chain(before, items, attempts, i, i);
    assert repo' == RepoAfter(before, items[i], attempts[i]) == RepoBefore(repo, items, attempts, i + 1);
    assert response == Response(r.success, if !r.success && r.fallbackEligible then None else Some(r.cause), i);
  }

  // ---- What a chain means, by stored connections and answers ----

  // The provider of item n is stored, and is not in a cooldown that lasts beyond the start.
  ghost predicate Reached(repo: Repo, items: seq<Id>, attempts: seq<Attempt>, n: nat)
    requires n < |items| == |attempts|
  {
    items[n] in repo
    && !(repo[items[n]].status == "cooldown"
         && exists d :: repo[items[n]].cooldownUntil == Some(d) && attempts[n].start < d)
  }

  predicate Succeeds(o: Outcome) { o == Reply || (o.Http? && o.code < 400) }

  // A client error other than "too many requests".
  predicate FailsForGood(o: Outcome) { o.Http? && 400 <= o.code < 500 && o.code != 429 }

  predicate Overloaded(o: Outcome) { o == NetworkError || o == Http(429) || (o.Http? && o.code >= 500) }

  // The repository after item n: a success reactivates the provider, and an answer that counts
  // against it starts a cooldown that grows with its level.
  ghost predicate Writes(repo: Repo, items: seq<Id>, attempts: seq<Attempt>, n: nat, repo': Repo)
    requires n < |items| == |attempts|
  {
    var id, a := items[n], attempts[n];
    if Reached(repo, items, attempts, n) && Succeeds(a.outcome) then
      repo' == repo[id := Conn("active", None, 0, repo[id].lastLatencyMs)]
    else if Reached(repo, items, attempts, n) && Overloaded(a.outcome) then
      var level := repo[id].backoffLevel;
      var backoff := if level < 2 then 30 else if level < 20 then 30 * level else 600;
      repo' == repo[id := Conn("cooldown", Some(a.finish + backoff), level, repo[id].lastLatencyMs)]
    else repo' == repo
  }

  // repos[n] is the repository before item n. The items before `last` are passed over, as each is
  // not reached, or neither succeeds nor fails for good; `last` succeeds, or fails for good, or is
  // the last of the list.
  ghost predicate Unfolds(items: seq<Id>, attempts: seq<Attempt>, repos: seq<Repo>, response: Response)
    requires 0 < |items| == |attempts|
  {
    var last := response.fallbackCount;
    && last < |items| && |repos| == last + 2
    && (forall n :: 0 <= n <= last ==> Writes(repos[n], items, attempts, n, repos[n+1]))
    && (forall n :: 0 <= n < last ==>
          Reached(repos[n], items, attempts, n) ==>
            !Succeeds(attempts[n].outcome) && !FailsForGood(attempts[n].outcome))
    && (if Reached(repos[last], items, attempts, last) && Succeeds(attempts[last].outcome) then
          response == Response(true, Some(Answered), last)
        else if Reached(repos[last], items, attempts, last) && FailsForGood(attempts[last].outcome) then
          response == Response(false, Some(Upstream(attempts[last].outcome)), last)
        else
          response == Response(false, None, last) && last == |items| - 1)
  }

  lemma ChainMeans(repo: Repo, items: seq<Id>, attempts: seq<Attempt>) returns (repos: seq<Repo>)
    requires 0 < |items| == |attempts|
    ensures var (repo', response) := Chain(repo, items, attempts, 0, 0);
            Unfolds(items, attempts, repos, response) && repos[0] == repo && repos[|repos|-1] == repo'
  {
    var (repo', response) := Chain(repo, items, attempts, 0, 0);
    var last := response.fallbackCount;
    ChainTriesPrefix(repo, items, attempts);
    repos := seq(last + 2, n requires 0 <= n < last + 2 => RepoBefore(repo, items, attempts, n));
    forall n | 0 <= n <= last
      ensures Writes(repos[n], items, attempts, n, repos[n+1])
    {
      ItemWrites(repos[n], items, attempts, n);
    }
    forall n | 0 <= n < last
      ensures Reached(repos[n], items, attempts, n) ==>
                !Succeeds(attempts[n].outcome) && !FailsForGood(attempts[n].outcome)
    {
      AllBefore(repo, items, attempts, last, n);
      ItemMeans(repos[n], items, attempts, n);
    }
    ItemMeans(repos[last], items, attempts, last);
  }

  lemma {:induction false} AllBefore(repo: Repo, items: seq<Id>, attempts: seq<Attempt>, n: nat, i: nat)
    requires i < n <= |items| == |attempts| && AllFallBack(repo, items, attempts, n)
    ensures FallsBack(repo, items, attempts, i)
  {
    if i < n - 1 { AllBefore(repo, items, attempts, n - 1, i); }
  }

  lemma ItemMeans(repo: Repo, items: seq<Id>, attempts: seq<Attempt>, n: nat)
    requires n < |items| == |attempts|
    ensures var r, o := ResultOf(repo, items[n], attempts[n]), attempts[n].outcome;
            && (r.success <==> Reached(repo, items, attempts, n) && Succeeds(o))
            && (!r.success && !r.fallbackEligible <==> Reached(repo, items, attempts, n) && FailsForGood(o))
            && (r.success ==> r.cause == Answered)
            && (!r.success && !r.fallbackEligible ==> r.cause == Upstream(o))
  {
  }

  lemma ItemWrites(repo: Repo, items: seq<Id>, attempts: seq<Attempt>, n: nat)
    requires n < |items| == |attempts|
    ensures Writes(repo, items, attempts, n, RepoAfter(repo, items[n], attempts[n]))
  {
  }

  // Attempts happen one after the other.
  ghost predicate InOrder(attempts: seq<Attempt>) {
    && (forall i :: 0 <= i < |attempts| ==> attempts[i].start <= attempts[i].finish)
    && (forall i, j :: 0 <= i < j < |attempts| ==> attempts[i].finish <= attempts[j].start)
  }

  // The steps that trying the first n items contributes to a run.
  function ChainSteps(repo: Repo, items: seq<Id>, attempts: seq<Attempt>, n: nat): seq<Step>
    requires n <= |items| == |attempts|
  {
    if n == 0 then []
    else ChainSteps(repo, items, attempts, n - 1)
         + StepsOf(RepoBefore(repo, items, attempts, n - 1), items[n-1], attempts[n-1])
  }

  // A chain is one run of the cooldown machine, whatever probes are going on, and in time
  // order if its attempts are: what holds over all runs holds over chains.
  lemma {:induction false} ChainIsARun(repo: Repo, probes: map<nat, Id>, items: seq<Id>, attempts: seq<Attempt>, n: nat)
    requires n <= |items| == |attempts|
    ensures After(State(repo, probes), ChainSteps(repo, items, attempts, n))
              == State(RepoBefore(repo, items, attempts, n), probes)
  {
    if n > 0 {
      ChainIsARun(repo, probes, items, attempts, n - 1);
      ItemExtends(State(repo, probes), ChainSteps(repo, items, attempts, n - 1),
                  RepoBefore(repo, items, attempts, n - 1), items[n-1], attempts[n-1]);
    }
  }

  lemma ItemExtends(start: State, steps: seq<Step>, repo: Repo, id: Id, a: Attempt)
    requires After(start, steps) == State(repo, start.probes)
    ensures After(start, steps + StepsOf(repo, id, a)) == State(RepoAfter(repo, id, a), start.probes)
  {
    AfterConcat(start, steps, StepsOf(repo, id, a));
    ItemIsARun(repo, start.probes, id, a);
  }

  lemma {:induction false} ChainIsInOrder(repo: Repo, items: seq<Id>, attempts: seq<Attempt>, n: nat)
    requires n <= |items| == |attempts| && InOrder(attempts)
    ensures Monotone(ChainSteps(repo, items, attempts, n))
  {
    if n > 0 {
      ChainIsInOrder(repo, items, attempts, n - 1);
      ChainStepsBy(repo, items, attempts, n - 1, attempts[n-1].start);
      ItemIsInOrder(ChainSteps(repo, items, attempts, n - 1),
                    RepoBefore(repo, items, attempts, n - 1), items[n-1], attempts[n-1]);
    }
  }

  lemma ItemIsInOrder(steps: seq<Step>, repo: Repo, id: Id, a: Attempt)
    requires Monotone(steps) && a.start <= a.finish
    requires forall i :: 0 <= i < |steps| ==> steps[i].now <= a.start
    ensures Monotone(steps + StepsOf(repo, id, a))
  {
    var last := StepsOf(repo, id, a);
    assert forall i :: 0 <= i < |last| ==> last[i].now == if i == 0 then a.start else a.finish;
  }

  lemma StepsBy(repo: Repo, id: Id, a: Attempt)
    requires a.start <= a.finish
    ensures forall i :: 0 <= i < |StepsOf(repo, id, a)| ==> StepsOf(repo, id, a)[i].now <= a.finish
  {
  }

  lemma {:induction false} ChainStepsBy(repo: Repo, items: seq<Id>, attempts: seq<Attempt>, n: nat, time: int)
    requires n <= |items| == |attempts|
    requires forall i :: 0 <= i < n ==> attempts[i].start <= attempts[i].finish <= time
    ensures forall i :: 0 <= i < |ChainSteps(repo, items, attempts, n)| ==>
              ChainSteps(repo, items, attempts, n)[i].now <= time
  {
    if n > 0 {
      ChainStepsBy(repo, items, attempts, n - 1, time);
      StepsBy(RepoBefore(repo, items, attempts, n - 1), items[n-1], attempts[n-1]);
    }
  }

  // A provider listed twice is not called again before its deadline, once it has failed earlier
  // in the same chain: the later item is skipped as cooling down.
  lemma NoSecondCallInChain(repo: Repo, items: seq<Id>, attempts: seq<Attempt>, i: nat, j: nat)
    requires i < j < |items| == |attempts| && items[i] == items[j] && InOrder(attempts)
    requires AllFallBack(repo, items, attempts, j)
    requires ResultAt(repo, items, attempts, i).cause.Upstream? && Blames(attempts[i].outcome)
    requires attempts[j].start
               < attempts[i].finish + Backoff(RepoBefore(repo, items, attempts, i)[items[i]].backoffLevel)
    ensures ResultAt(repo, items, attempts, j) == ItemResult(false, true, InCooldown)
  {
    var before := RepoBefore(repo, items, attempts, i);
    StaysFirm(repo, items, attempts, i, j, attempts[i].finish + Backoff(before[items[i]].backoffLevel));
  }

  lemma {:induction false} StaysFirm(repo: Repo, items: seq<Id>, attempts: seq<Attempt>, i: nat, j: nat, limit: int)
    requires i < j < |items| == |attempts| && InOrder(attempts)
    requires AllFallBack(repo, items, attempts, j)
    requires FirmIn(RepoBefore(repo, items, attempts, i + 1), items[i], attempts[i].finish, limit)
    ensures FirmIn(RepoBefore(repo, items, attempts, j), items[i], attempts[i].finish, limit)
    decreases j
  {
    if j > i + 1 {
      StaysFirm(repo, items, attempts, i, j - 1, limit);
      FallbackIsFirm(RepoBefore(repo, items, attempts, j - 1), items[j-1], attempts[j-1], items[i],
                     attempts[i].finish, limit);
    }
  }

  ghost predicate FirmIn(repo: Repo, id: Id, t: int, limit: int) {
    id in repo && Firm(State(repo, map[]), id, t, limit)
  }

  lemma FallbackIsFirm(repo: Repo, item: Id, a: Attempt, id: Id, t: int, limit: int)
    requires !ResultOf(repo, item, a).success && FirmIn(repo, id, t, limit) && t <= a.finish
    ensures FirmIn(RepoAfter(repo, item, a), id, t, limit)
  {
  }

  class ComboManager {
    const repo: ProviderRepo

    constructor (repo: ProviderRepo)
      ensures this.repo == repo
    {
      this.repo := repo;
    }

    method MarkCooldown(provider: ProviderConnection, now: int)
      requires repo.Valid() && provider.id in repo.providers && provider == repo.providers[provider.id]
      modifies repo`state, repo.Repr
      ensures repo.Valid()
      ensures repo.state == var c := old(repo.state)[provider.id];
                            old(repo.state)[provider.id := Marked(c, now + Backoff(c.backoffLevel))]
    {
      var backoff := 30;
      if provider.backoffLevel > 0 {
        backoff := provider.backoffLevel * 30;
        if backoff > 600 { backoff := 600; }
      }
      repo.MarkCooldown(provider.id, now + backoff);
    }

    // What follows the request: the answer, and its mark on the provider.
    method Conclude(provider: ProviderConnection, a: Attempt) returns (result: ItemResult)
      requires repo.Valid() && provider.id in repo.providers && provider == repo.providers[provider.id]
      requires !CoolingDown(provider.Contents(), a.start)
      modifies repo`state, repo.Repr
      ensures repo.Valid()
      ensures result == ResultOf(old(repo.state), provider.id, a)
      ensures repo.state == RepoAfter(old(repo.state), provider.id, a)
    {
      match a.outcome {
        case NoAdapter => return ItemResult(false, true, Prepared(a.outcome));
        case BadSecret => return ItemResult(false, true, Prepared(a.outcome));
        case BadTranslation => return ItemResult(false, true, Prepared(a.outcome));
        case NetworkError =>
          MarkCooldown(provider, a.finish);
          return ItemResult(false, true, Upstream(a.outcome));
        case Http(code) =>
          if code >= 400 {
            var eligible := code == 429 || code >= 500;
            if eligible { MarkCooldown(provider, a.finish); }
            return ItemResult(false, eligible, Upstream(a.outcome));
          }
        case Unparsable => return ItemResult(false, true, Upstream(a.outcome));
        case Reply =>
      }
      repo.ClearCooldown(provider.id);
      return ItemResult(true, false, Answered);
    }

    method ExecuteItem(id: Id, a: Attempt) returns (result: ItemResult)
      requires repo.Valid()
      modifies repo`state, repo.Repr
      ensures repo.Valid()
      ensures result == ResultOf(old(repo.state), id, a)
      ensures repo.state == RepoAfter(old(repo.state), id, a)
    {
      if id !in repo.providers {
        return ItemResult(false, true, NotFound);
      }
      var provider := repo.providers[id];
      if provider.status == "cooldown" {
        if provider.cooldownUntil.Some? && a.start < provider.cooldownUntil.value {
          return ItemResult(false, true, InCooldown);
        }
      }
      result := Conclude(provider, a);
    }

    // attempts[i] is what the world answers if item i is tried.
    method Execute(items: seq<Id>, attempts: seq<Attempt>) returns (response: Response)
      requires repo.Valid() && |items| == |attempts|
      modifies repo`state, repo.Repr
      ensures repo.Valid()
      ensures items == [] ==> response == Response(false, None, 0) && repo.state == old(repo.state)
      ensures items != [] ==> (repo.state, response) == Chain(old(repo.state), items, attempts, 0, 0)
    {
      if items == [] {
        return Response(false, None, 0);
      }
      ghost var start := repo.state;
      var fallbackCount: nat := 0;
      for i := 0 to |items|
        invariant repo.Valid() && repo.Repr == old(repo.Repr)
        invariant i < |items| ==> fallbackCount == i
        invariant i < |items| ==> Chain(repo.state, items, attempts, i, i) == Chain(start, items, attempts, 0, 0)
        invariant i == |items| ==>
                    (repo.state, Response(false, None, fallbackCount)) == Chain(start, items, attempts, 0, 0)
      {
        var result := ExecuteItem(items[i], attempts[i]);
        if result.success {
          return Response(true, Some(result.cause), fallbackCount);
        }
        if !result.fallbackEligible {
          return Response(false, Some(result.cause), fallbackCount);
        }
        if i < |items| - 1 {
          fallbackCount := fallbackCount + 1;
        }
      }
      return Response(false, None, fallbackCount);
    }
  }
}
