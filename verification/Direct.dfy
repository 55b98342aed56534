/** A chat request sent without a combo: up to three of the ranked providers, or the model's own
    provider when the router has none. */
module Direct {
  import opened Sequences
  import opened Router
  import opened Cooldown
  import opened Combo

  // The outcomes after which the next candidate is tried.
  predicate Retries(o: Outcome) {
    o.NoAdapter? || o.BadSecret? || o.BadTranslation? || Blames(o)
  }

  predicate Sent(o: Outcome) { !o.NoAdapter? && !o.BadSecret? && !o.BadTranslation? }

  // The status relayed to the caller: an upstream error as it is, 200 otherwise.
  function StatusOf(o: Outcome): int {
    if o.Http? && o.code >= 400 then o.code else 200
  }

  datatype Answer = Relay(provider: Id, status: int) | BadGateway | ProviderMissing | ModelMissing

  // The atomic steps one candidate contributes; latencies are not modelled beyond being written.
  function DirectSteps(id: Id, a: Attempt, latencyMs: int): seq<Step> {
    if !Sent(a.outcome) then []
    else [LatencyMeasured(id, a.finish, latencyMs)] + if Blames(a.outcome) then [DirectFailed(id, a.finish)] else []
  }

  function DirectAfter(repo: Repo, id: Id, a: Attempt, latencyMs: int): Repo {
    After(State(repo, map[]), DirectSteps(id, a, latencyMs)).repo
  }

  function DirectBefore(repo: Repo, ids: seq<Id>, attempts: seq<Attempt>, latencies: seq<int>, n: nat): Repo
    requires n <= |ids| == |attempts| == |latencies|
  {
    if n == 0 then repo
    else DirectAfter(DirectBefore(repo, ids, attempts, latencies, n - 1), ids[n-1], attempts[n-1], latencies[n-1])
  }

  lemma DirectAfterCases(repo: Repo, id: Id, a: Attempt, latencyMs: int)
    ensures DirectAfter(repo, id, a, latencyMs) ==
              if !Sent(a.outcome) || id !in repo then repo
              else
                var c := repo[id].(lastLatencyMs := latencyMs);
                repo[id := if Blames(a.outcome) then Marked(c, a.finish + DIRECT_BACKOFF) else c]
  {
    var s, steps := State(repo, map[]), DirectSteps(id, a, latencyMs);
    if |steps| == 2 {
      assert steps[..1] == [steps[0]] && [steps[0]][..0] == [];
      assert After(s, [steps[0]]) == Next(s, steps[0]);
    } else if |steps| == 1 {
      assert steps[..0] == [];
      assert After(s, steps) == Next(s, steps[0]);
    } else {
      assert steps == [];
    }
  }

  // After a failure that leaves the provider to blame it cools down for a minute; whatever came
  // back, the latency is written; what was never sent leaves no trace.
  lemma DirectMeans(repo: Repo, ids: seq<Id>, attempts: seq<Attempt>, latencies: seq<int>, n: nat)
    requires n < |ids| == |attempts| == |latencies|
    ensures DirectBefore(repo, ids, attempts, latencies, 0) == repo
    ensures var before := DirectBefore(repo, ids, attempts, latencies, n);
            var id, o, finish := ids[n], attempts[n].outcome, attempts[n].finish;
            DirectBefore(repo, ids, attempts, latencies, n + 1)
            == if id !in before || o in {NoAdapter, BadSecret, BadTranslation} then before
               else if o == NetworkError || o == Http(429) || (o.Http? && o.code >= 500) then
                 before[id := Conn("cooldown", Some(finish + 60), before[id].backoffLevel, latencies[n])]
               else before[id := before[id].(lastLatencyMs := latencies[n])]
  {
    DirectAfterCases(DirectBefore(repo, ids, attempts, latencies, n), ids[n], attempts[n], latencies[n]);
  }

  function Candidates(ranked: seq<Id>, own: Id, repo: Repo): seq<Id> {
    if ranked != [] then ranked else if own in repo then [own] else []
  }

  // The first enabled model that matches the request.
  function TargetModel(models: seq<Model>, requested: string): Option<Model> {
    if models == [] then None
    else if Matches(models[0], requested) then Some(models[0])
    else TargetModel(models[1..], requested)
  }

  // It is the row at the first position that answers to the name, if there is one.
  lemma {:induction false} TargetModelIsFirst(models: seq<Model>, name: string) returns (i: nat)
    ensures i <= |models| && forall j :: 0 <= j < i ==> name !in [models[j].modelID, models[j].modelName, models[j].id]
    ensures i == |models| ==> TargetModel(models, name) == None
    ensures i < |models| ==> TargetModel(models, name) == Some(models[i])
                             && name in [models[i].modelID, models[i].modelName, models[i].id]
  {
    i := 0;
    if models != [] && !Matches(models[0], name) {
      var k := TargetModelIsFirst(models[1..], name);
      assert forall j :: 0 < j < |models| ==> models[j] == models[1..][j-1];
      i := k + 1;
    }
  }

  // The answer is that of candidate n, after all before it failed retriably.
  ghost predicate RelaysFrom(answer: Answer, ids: seq<Id>, attempts: seq<Attempt>, n: nat)
    requires n < |ids| == |attempts|
  {
    && answer == Relay(ids[n], StatusOf(attempts[n].outcome)) && !Retries(attempts[n].outcome)
    && forall j :: 0 <= j < n ==> Retries(attempts[j].outcome)
  }

  // That is: the provider's client error as it is, or 200, and every earlier candidate could not
  // be sent to, failed on the way, or answered 429 or a server error.
  lemma RelaysFromMeans(answer: Answer, ids: seq<Id>, attempts: seq<Attempt>, n: nat)
    requires n < |ids| == |attempts|
    ensures RelaysFrom(answer, ids, attempts, n)
       <==> && !PassedOver(attempts[n].outcome) && (forall j :: 0 <= j < n ==> PassedOver(attempts[j].outcome))
            && answer == Relay(ids[n], match attempts[n].outcome
                                       case Http(c) => (if c < 400 then 200 else c)
                                       case _ => 200)
  {
  }

  predicate PassedOver(o: Outcome) {
    o in {NoAdapter, BadSecret, BadTranslation, NetworkError, Http(429)} || (o.Http? && o.code >= 500)
  }

  class ChatHandler {
    const repo: ProviderRepo

    constructor (repo: ProviderRepo)
      ensures this.repo == repo
    {
      this.repo := repo;
    }

    // One candidate, up to deciding whether the next one is tried.
    method TryProvider(id: Id, a: Attempt, latencyMs: int) returns (retry: bool)
      requires repo.Valid()
      modifies repo`state, repo.Repr
      ensures repo.Valid() && repo.state == DirectAfter(old(repo.state), id, a, latencyMs)
      ensures retry <==> Retries(a.outcome)
    {
      DirectAfterCases(repo.state, id, a, latencyMs);
      if a.outcome.NoAdapter? || a.outcome.BadSecret? || a.outcome.BadTranslation? {
        return true;
      }
      repo.UpdateLatency(id, latencyMs);
      if a.outcome.NetworkError? || (a.outcome.Http? && (a.outcome.code >= 500 || a.outcome.code == 429)) {
        repo.MarkCooldown(id, a.finish + 60);
        return true;
      }
      return false;
    }

    // ranked is what the router returned for the target model, [] on error. At most three
    // candidates are tried, each only after all before it failed retriably.
    method ExecuteDirectRequest(models: seq<Model>, requested: string, ranked: seq<Id>,
                                attempts: seq<Attempt>, latencies: seq<int>)
      returns (answer: Answer, ghost tried: nat)
      requires repo.Valid() && |attempts| == |latencies|
      requires TargetModel(models, requested).Some? ==>
                 |attempts| == |Candidates(ranked, TargetModel(models, requested).value.providerID, repo.state)|
      modifies repo`state, repo.Repr
      ensures repo.Valid() && tried <= 3
      ensures TargetModel(models, requested).None? <==> answer == ModelMissing
      ensures answer == ModelMissing || answer == ProviderMissing ==> tried == 0 && repo.state == old(repo.state)
      ensures TargetModel(models, requested).Some? ==>
                var ids := Candidates(ranked, TargetModel(models, requested).value.providerID, old(repo.state));
                && (answer == ProviderMissing <==> ids == [])
                && tried <= |ids|
                && repo.state == DirectBefore(old(repo.state), ids, attempts, latencies, tried)
                && (answer.BadGateway? ==>
                      (tried == 3 || tried == |ids|) && forall j :: 0 <= j < tried ==> Retries(attempts[j].outcome))
                && (answer.Relay? ==> tried > 0 && RelaysFrom(answer, ids, attempts, tried - 1))
      ensures TargetModel(models, requested).Some? && ranked != [] ==>
                tried <= |ranked| && (answer.Relay? ==> answer.provider == ranked[tried-1])
                && (answer == BadGateway ==> tried == 3 || tried == |ranked|)
      ensures TargetModel(models, requested).Some? && ranked == [] ==>
                tried <= 1 && (answer.Relay? ==> answer.provider == TargetModel(models, requested).value.providerID)
                && (answer == ProviderMissing <==> TargetModel(models, requested).value.providerID !in old(repo.state))
    {
      tried := 0;
      var target := FindModel(models, requested);
      if target.None? {
        return ModelMissing, 0;
      }
      var ids := ranked;
      if ids == [] {
        if target.value.providerID !in repo.providers {
          return ProviderMissing, 0;
        }
        ids := [target.value.providerID];
      }
      ghost var start := repo.state;
      for attempt := 0 to |ids|
        invariant repo.Valid() && repo.Repr == old(repo.Repr) && tried == attempt <= 3
        invariant repo.state == DirectBefore(start, ids, attempts, latencies, attempt)
        invariant forall j :: 0 <= j < attempt ==> Retries(attempts[j].outcome)
      {
        if attempt >= 3 {
          break;
        }
        var retry := TryProvider(ids[attempt], attempts[attempt], latencies[attempt]);
        tried := attempt + 1;
        if !retry {
          return Relay(ids[attempt], if attempts[attempt].outcome.Http? && attempts[attempt].outcome.code >= 400
                                     then attempts[attempt].outcome.code else 200), tried;
        }
      }
      return BadGateway, tried;
    }

    static method FindModel(models: seq<Model>, requested: string) returns (m: Option<Model>)
      ensures m == TargetModel(models, requested)
    {
      for n := 0 to |models|
        invariant TargetModel(models[n..], requested) == TargetModel(models, requested)
      {
        if Matches(models[n], requested) { return Some(models[n]); }
      }
      return None;
    }
  }

  // The providers the router reads are the stored ones.
  ghost predicate Mirrors(providers: seq<Provider>, repo: Repo) {
    && (forall p | p in providers :: p.id in repo && p.status == repo[p.id].status
          && p.cooldownUntil == repo[p.id].cooldownUntil)
    && (forall id | id in repo :: exists p :: p in providers && p.id == id)
  }

  function Ids(list: seq<Provider>): seq<Id> {
    seq(|list|, i requires 0 <= i < |list| => list[i].id)
  }

  predicate Cool(c: Conn, now: int) { c.status != "active" || (c.cooldownUntil.Some? && now <= c.cooldownUntil.value) }

  // A direct request may go to a provider that is disabled or cooling down exactly when the
  // router finds no eligible provider and the model's own provider is in that state: the
  // fallback does not look.
  lemma FallbackIgnoresCooldown(providers: seq<Provider>, models: seq<Model>, repo: Repo, m: Model, requested: string,
                                key: Provider -> real, list: seq<Provider>, now: int)
    requires Mirrors(providers, repo) && TargetModel(models, requested) == Some(m)
    requires IsRanking(list, Eligible(providers, models, m.modelID, now), key)
    ensures (exists i :: 0 <= i < |Candidates(Ids(list), m.providerID, repo)|
                 && Candidates(Ids(list), m.providerID, repo)[i] in repo
                 && Cool(repo[Candidates(Ids(list), m.providerID, repo)[i]], now))
       <==> Eligible(providers, models, m.modelID, now) == [] && m.providerID in repo && Cool(repo[m.providerID], now)
  {
    var eligible := Eligible(providers, models, m.modelID, now);
    var c := Candidates(Ids(list), m.providerID, repo);
    SameMembers(list, eligible);
    forall i | 0 <= i < |list|
      ensures list[i].id in repo && !Cool(repo[list[i].id], now)
    {
      assert list[i] in list;
      EligibleIsReady(providers, models, m.modelID, now, list[i]);
    }
    if eligible == [] {
      assert |list| == |multiset(list)| == |multiset(eligible)| == 0;
      if m.providerID in repo { assert c[0] == m.providerID; }
    } else {
      assert eligible[0] in eligible;
      assert |Ids(list)| == |list| > 0;
      assert forall i :: 0 <= i < |c| ==> c[i] == list[i].id;
    }
  }

  lemma EligibleIsReady(providers: seq<Provider>, models: seq<Model>, modelID: string, now: int, p: Provider)
    requires p in Eligible(providers, models, modelID, now)
    ensures p in providers && Ready(p, now)
  {
    FilterMembers((p: Provider) => Serves(models, p, modelID) && Ready(p, now), providers, p);
  }
}
