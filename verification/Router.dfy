/** Choosing providers for a model: the eligible ones, their order, and the weighted draw. */
module Router {
  import opened Sequences
  import opened Sets

  datatype Option<T> = None | Some(value: T)

  type Id = string

  // Times are whole seconds.
  datatype Provider = Provider(id: Id, status: string, cooldownUntil: Option<int>, priority: int, weight: int,
                               tier: string, lastLatencyMs: int)

  datatype Model = Model(id: Id, providerID: Id, modelID: string, modelName: string,
                         inputCostPer1k: real, outputCostPer1k: real)

  datatype Strategy = Priority | Weighted | Latency | Cost | Fallback | Tier | Other

  predicate Matches(m: Model, modelID: string) {
    m.modelID == modelID || m.modelName == modelID || m.id == modelID
  }

  predicate Serves(models: seq<Model>, p: Provider, modelID: string) {
    exists i :: 0 <= i < |models| && models[i].providerID == p.id && Matches(models[i], modelID)
  }

  predicate Ready(p: Provider, now: int) {
    p.status == "active" && (p.cooldownUntil.None? || now > p.cooldownUntil.value)
  }

  // The providers a request may go to, in the order the repository listed them.
  function Eligible(providers: seq<Provider>, models: seq<Model>, modelID: string, now: int): seq<Provider> {
    Filter((p: Provider) => Serves(models, p, modelID) && Ready(p, now), providers)
  }

  // The first listed cost of p for the model; a match on the row id alone does not count here.
  function ProviderCost(p: Provider, models: seq<Model>, modelID: string): real {
    if models == [] then 0.1
    else if models[0].providerID == p.id && (models[0].modelID == modelID || models[0].modelName == modelID)
    then models[0].inputCostPer1k + models[0].outputCostPer1k
    else ProviderCost(p, models[1..], modelID)
  }

  // The key SelectProvidersForModel sorts by, smallest first; tier has no case of its own there.
  function SortKey(strat: Strategy, p: Provider, models: seq<Model>, modelID: string): real {
    match strat
    case Latency => p.lastLatencyMs as real
    case Cost => ProviderCost(p, models, modelID)
    case _ => (-p.priority) as real
  }

  ghost predicate SortedBy(key: Provider -> real, s: seq<Provider>) {
    forall i, j :: 0 <= i < j < |s| ==> key(s[i]) <= key(s[j])
  }

  // sort.Slice: some permutation in key order. Which one among equal keys is not specified.
  method SortSlice(s: seq<Provider>, key: Provider -> real) returns (r: seq<Provider>)
    ensures multiset(r) == multiset(s) && |r| == |s|
    ensures SortedBy(key, r)
  {
    r := [];
    for n := 0 to |s|
      invariant multiset(r) == multiset(s[..n]) && |r| == n && SortedBy(key, r)
    {
      assert s[..n+1] == s[..n] + [s[n]];
      r := Insert(r, s[n], key);
    }
    assert s[..|s|] == s;
  }

  method Insert(s: seq<Provider>, p: Provider, key: Provider -> real) returns (r: seq<Provider>)
    requires SortedBy(key, s)
    ensures multiset(r) == multiset(s) + multiset{p} && |r| == |s| + 1
    ensures SortedBy(key, r)
  {
    var k := |s|;
    while k > 0 && key(p) < key(s[k-1])
      invariant 0 <= k <= |s|
      invariant forall i :: k <= i < |s| ==> key(p) < key(s[i])
    {
      k := k - 1;
    }
    r := s[..k] + [p] + s[k..];
    InsertKeeps(s, p, k);
    InsertSorts(s, p, k, key);
  }

  lemma InsertKeeps(s: seq<Provider>, p: Provider, k: nat)
    requires k <= |s|
    ensures multiset(s[..k] + [p] + s[k..]) == multiset(s) + multiset{p}
  {
    assert s == s[..k] + s[k..];
  }

  lemma InsertSorts(s: seq<Provider>, p: Provider, k: nat, key: Provider -> real)
    requires SortedBy(key, s) && k <= |s|
    requires forall i :: k <= i < |s| ==> key(p) < key(s[i])
    requires k > 0 ==> key(s[k-1]) <= key(p)
    ensures SortedBy(key, s[..k] + [p] + s[k..])
  {
    var r := s[..k] + [p] + s[k..];
    forall i, j | 0 <= i < j < |r|
      ensures key(r[i]) <= key(r[j])
    {
      var x := if i < k then s[i] else if i == k then p else s[i-1];
      var y := if j < k then s[j] else if j == k then p else s[j-1];
      assert r[i] == x && r[j] == y;
      if i < k && j == k { assert key(s[i]) <= key(s[k-1]); }
    }
  }

  // The lookup shared by the single choice and the ranking. An empty provider list is no
  // error, but gives no provider either.
  method FindActive(models: seq<Model>, providers: seq<Provider>, modelID: string, now: int)
    returns (active: seq<Provider>, failed: bool)
    ensures active == Eligible(providers, models, modelID, now)
    ensures failed <==>
              active == [] && (providers != [] || !exists i :: 0 <= i < |models| && Matches(models[i], modelID))
  {
    var targets := FindTargets(models, modelID);
    if targets == [] {
      NoneServe(providers, models, modelID, now);
      return [], true;
    }
    if providers == [] {
      return [], false;
    }
    ghost var serves, ready := (p: Provider) => Serves(models, p, modelID), (p: Provider) => Ready(p, now);
    var candidates := FindCandidates(providers, targets, serves);
    active := FindReady(candidates, now, ready);
    FilterBoth(serves, ready, (p: Provider) => Serves(models, p, modelID) && Ready(p, now), providers);
    failed := active == [];
  }

  // The providers of the rows that match the model.
  method FindTargets(models: seq<Model>, modelID: string) returns (targets: seq<Id>)
    ensures forall id :: id in targets <==>
              exists i :: 0 <= i < |models| && models[i].providerID == id && Matches(models[i], modelID)
    ensures targets == [] <==> !exists i :: 0 <= i < |models| && Matches(models[i], modelID)
  {
    targets := [];
    for n := 0 to |models|
      invariant forall id :: id in targets <==>
                  exists i :: 0 <= i < n && models[i].providerID == id && Matches(models[i], modelID)
      invariant targets == [] <==> !exists i :: 0 <= i < n && Matches(models[i], modelID)
    {
      if models[n].modelID == modelID || models[n].modelName == modelID || models[n].id == modelID {
        targets := targets + [models[n].providerID];
      }
    }
  }

  method FindCandidates(providers: seq<Provider>, targets: seq<Id>, ghost serves: Provider -> bool)
    returns (candidates: seq<Provider>)
    requires forall p: Provider :: serves(p) <==> p.id in targets
    ensures candidates == Filter(serves, providers)
  {
    candidates := [];
    for n := 0 to |providers|
      invariant candidates == Filter(serves, providers[..n])
    {
      FilterNext(serves, providers, n);
      var found := InTargets(targets, providers[n].id);
      if found { candidates := candidates + [providers[n]]; }
    }
    assert providers[..|providers|] == providers;
  }

  method FindReady(candidates: seq<Provider>, now: int, ghost ready: Provider -> bool) returns (active: seq<Provider>)
    requires forall p :: ready(p) <==> Ready(p, now)
    ensures active == Filter(ready, candidates)
  {
    active := [];
    for n := 0 to |candidates|
      invariant active == Filter(ready, candidates[..n])
    {
      FilterNext(ready, candidates, n);
      var isReady := IsReady(candidates[n], now);
      if isReady { active := active + [candidates[n]]; }
    }
    assert candidates[..|candidates|] == candidates;
  }

  method IsReady(p: Provider, now: int) returns (isReady: bool)
    ensures isReady <==> Ready(p, now)
  {
    isReady := p.status == "active" && (p.cooldownUntil.None? || now > p.cooldownUntil.value);
  }

  method InTargets(targets: seq<Id>, id: Id) returns (found: bool)
    ensures found <==> id in targets
  {
    for n := 0 to |targets|
      invariant id !in targets[..n]
    {
      if targets[n] == id { return true; }
    }
    return false;
  }

  lemma {:induction false} FilterBoth(f: Provider -> bool, g: Provider -> bool, h: Provider -> bool, s: seq<Provider>)
    requires forall p :: h(p) <==> f(p) && g(p)
    ensures Filter(g, Filter(f, s)) == Filter(h, s)
  {
    if s != [] {
      var p := s[|s|-1];
      FilterBoth(f, g, h, s[..|s|-1]);
      if f(p) {
        FilterSnoc(g, Filter(f, s));
        assert Filter(f, s)[..|Filter(f, s)|-1] == Filter(f, s[..|s|-1]);
      } else {
        assert Filter(f, s) == Filter(f, s[..|s|-1]);
      }
    }
  }

  lemma {:induction false} NoneServe(providers: seq<Provider>, models: seq<Model>, modelID: string, now: int)
    requires !exists i :: 0 <= i < |models| && Matches(models[i], modelID)
    ensures Eligible(providers, models, modelID, now) == []
  {
    if providers != [] {
      NoneServe(providers[..|providers|-1], models, modelID, now);
      assert Eligible(providers, models, modelID, now)
               == Eligible(providers[..|providers|-1], models, modelID, now) + [];
    }
  }

  // Every eligible provider, each as often as it is listed, in key order.
  ghost predicate IsRanking(list: seq<Provider>, eligible: seq<Provider>, key: Provider -> real) {
    multiset(list) == multiset(eligible) && SortedBy(key, list)
  }

  method SelectProvidersForModel(strat: Strategy, models: seq<Model>, costModels: seq<Model>, providers: seq<Provider>,
                                 modelID: string, now: int)
    returns (list: seq<Provider>, failed: bool)
    ensures IsRanking(list, Eligible(providers, models, modelID, now),
                      (p: Provider) => SortKey(strat, p, costModels, modelID))
    ensures forall i, j :: 0 <= i < j < |list| ==> MayPrecede(strat, list[i], list[j], costModels, modelID)
    ensures failed <==> list == [] && (providers != [] || !exists i :: 0 <= i < |models| && Matches(models[i], modelID))
  {
    var active;
    active, failed := FindActive(models, providers, modelID, now);
    if failed { return [], true; }
    list := SortSlice(active, (p: Provider) => SortKey(strat, p, costModels, modelID));
    RankingFollows(list, active, strat, costModels, modelID);
  }

  // The eligible providers are those that are active, past any cooldown, and serve the model
  // under its model id, its name or its row id.
  lemma EligibleMeans(providers: seq<Provider>, models: seq<Model>, name: string, now: int, p: Provider)
    ensures p in Eligible(providers, models, name, now)
       <==> && p in providers && p.status == "active"
            && (p.cooldownUntil == None || p.cooldownUntil.value < now)
            && exists i :: 0 <= i < |models| && models[i].providerID == p.id
                           && name in [models[i].modelID, models[i].modelName, models[i].id]
  {
    FilterMembers((p: Provider) => Serves(models, p, name) && Ready(p, now), providers, p);
  }

  // Distinct provider ids are listed once each, and exactly the eligible ones.
  lemma RankingIsExact(list: seq<Provider>, providers: seq<Provider>, models: seq<Model>, name: string, now: int,
                       key: Provider -> real, p: Provider)
    requires IsRanking(list, Eligible(providers, models, name, now), key)
    requires forall i, j :: 0 <= i < j < |providers| ==> providers[i].id != providers[j].id
    ensures p in list
       <==> && p in providers && p.status == "active"
            && (p.cooldownUntil == None || p.cooldownUntil.value < now)
            && exists i :: 0 <= i < |models| && models[i].providerID == p.id
                           && name in [models[i].modelID, models[i].modelName, models[i].id]
    ensures multiset(list)[p] <= 1
  {
    EligibleMeans(providers, models, name, now, p);
    assert p in list <==> p in multiset(list);
    FilterOnce((p: Provider) => Serves(models, p, name) && Ready(p, now), providers, p);
  }

  lemma {:induction false} FilterOnce(f: Provider -> bool, s: seq<Provider>, p: Provider)
    requires forall i, j :: 0 <= i < j < |s| ==> s[i].id != s[j].id
    ensures multiset(Filter(f, s))[p] <= 1
  {
    if s != [] {
      FilterOnce(f, s[..|s|-1], p);
      FilterMembers(f, s[..|s|-1], s[|s|-1]);
      FilterSnoc(f, s);
    }
  }

  // ---- The single choice ----

  // p may be returned first by a sort under key.
  ghost predicate IsBest(p: Provider, s: seq<Provider>, key: Provider -> real) {
    p in s && forall q :: q in s ==> key(p) <= key(q)
  }

  method ByKey(providers: seq<Provider>, key: Provider -> real) returns (p: Provider)
    requires providers != []
    ensures IsBest(p, providers, key)
  {
    var sorted := SortSlice(providers, key);
    p := sorted[0];
    SameMembers(sorted, providers);
  }

  lemma SameMembers(s: seq<Provider>, t: seq<Provider>)
    requires multiset(s) == multiset(t)
    ensures forall q :: q in s <==> q in t
  {
    forall q ensures q in s <==> q in t {
      assert q in multiset(s) <==> q in multiset(t);
    }
  }

  // The fastest measured provider; the least latency when none is measured.
  ghost predicate LatencyPick(providers: seq<Provider>, p: Provider) {
    && p in providers
    && if exists q :: q in providers && q.lastLatencyMs > 0
       then && p.lastLatencyMs > 0
            && forall q :: q in providers && q.lastLatencyMs > 0 ==> p.lastLatencyMs <= q.lastLatencyMs
       else forall q :: q in providers ==> p.lastLatencyMs <= q.lastLatencyMs
  }

  method ByLatency(providers: seq<Provider>) returns (p: Provider)
    requires providers != []
    ensures LatencyPick(providers, p)
  {
    var key := (p: Provider) => p.lastLatencyMs as real;
    var sorted := SortSlice(providers, key);
    SameMembers(sorted, providers);
    for n := 0 to |sorted|
      invariant forall i :: 0 <= i < n ==> sorted[i].lastLatencyMs <= 0
    {
      if sorted[n].lastLatencyMs > 0 {
        assert forall i :: n < i < |sorted| ==> key(sorted[n]) <= key(sorted[i]);
        return sorted[n];
      }
    }
    assert forall i :: 0 < i < |sorted| ==> key(sorted[0]) <= key(sorted[i]);
    p := sorted[0];
  }

  function TierOrder(tier: string): int {
    if tier == "cheap" then 1 else if tier == "free" then 2 else 0
  }

  // The source's comparison: tier first, then higher priority. Unknown tiers rank with subscription.
  predicate TierBefore(p: Provider, q: Provider) {
    if TierOrder(p.tier) != TierOrder(q.tier) then TierOrder(p.tier) < TierOrder(q.tier) else p.priority > q.priority
  }

  // A provider no other comes before: any sort under TierBefore starts with one.
  ghost predicate TierPick(providers: seq<Provider>, p: Provider) {
    p in providers && forall q :: q in providers ==> !TierBefore(q, p)
  }

  method ByTier(providers: seq<Provider>) returns (p: Provider)
    requires providers != []
    ensures TierPick(providers, p)
  {
    p := providers[0];
    for n := 1 to |providers|
      invariant p in providers && forall i :: 0 <= i < n ==> !TierBefore(providers[i], p)
    {
      if TierBefore(providers[n], p) { p := providers[n]; }
    }
  }

  function Total(s: seq<Provider>): int {
    if s == [] then 0 else Total(s[..|s|-1]) + s[|s|-1].weight
  }

  function RunningTotal(s: seq<Provider>, n: nat): int
    requires n <= |s|
  {
    Total(s[..n])
  }

  // The provider at position i is drawn: the running total first exceeds the draw there.
  ghost predicate Drawn(s: seq<Provider>, draw: int, i: nat) {
    i < |s| && draw < RunningTotal(s, i + 1) && forall j :: 1 <= j <= i ==> RunningTotal(s, j) <= draw
  }

  // draw is the value of rand.Intn(total), which panics on a negative total.
  method ByWeighted(providers: seq<Provider>, draw: int) returns (p: Provider)
    requires providers != [] && Total(providers) >= 0
    requires Total(providers) > 0 ==> 0 <= draw < Total(providers)
    ensures WeightedPick(providers, draw, p)
  {
    var total := 0;
    for n := 0 to |providers|
      invariant total == Total(providers[..n])
    {
      assert providers[..n+1][..n] == providers[..n];
      total := total + providers[n].weight;
    }
    assert providers[..|providers|] == providers;
    if total == 0 {
      return providers[0];
    }
    var rng := draw;
    for n := 0 to |providers|
      invariant rng == draw - RunningTotal(providers, n)
      invariant forall j :: 1 <= j <= n ==> RunningTotal(providers, j) <= draw
    {
      assert providers[..n+1][..n] == providers[..n];
      rng := rng - providers[n].weight;
      if rng < 0 {
        assert Drawn(providers, draw, n);
        return providers[n];
      }
    }
    // The fallthrough of the source cannot be reached.
    assert false;
  }

  ghost predicate WeightedPick(providers: seq<Provider>, draw: int, p: Provider)
    requires providers != []
  {
    if Total(providers) == 0 then p == providers[0]
    else exists i: nat :: Drawn(providers, draw, i) && p == providers[i]
  }

  // The draws, out of the total, that choose position i.
  ghost function DrawsOf(s: seq<Provider>, i: nat): set<int> {
    set draw | 0 <= draw < Total(s) && Drawn(s, draw, i)
  }

  ghost predicate NoNegativeWeight(s: seq<Provider>) {
    forall i :: 0 <= i < |s| ==> s[i].weight >= 0
  }

  lemma {:induction false} TotalsGrow(s: seq<Provider>, i: nat, j: nat)
    requires NoNegativeWeight(s) && i <= j <= |s|
    ensures RunningTotal(s, i) <= RunningTotal(s, j)
    decreases j
  {
    if i < j {
      TotalsGrow(s, i, j - 1);
      assert s[..j][..j-1] == s[..j-1];
    }
  }

  lemma DrawsAreWeight(s: seq<Provider>, i: nat)
    requires NoNegativeWeight(s) && i < |s|
    ensures |DrawsOf(s, i)| == s[i].weight
  {
    assert s[..i+1][..i] == s[..i];
    assert s[..|s|] == s;
    TotalsGrow(s, 0, i);
    TotalsGrow(s, i, i + 1);
    TotalsGrow(s, i + 1, |s|);
    forall draw: int
      ensures draw in DrawsOf(s, i) <==> RunningTotal(s, i) <= draw < RunningTotal(s, i + 1)
    {
      if RunningTotal(s, i) <= draw < RunningTotal(s, i + 1) {
        forall j | 1 <= j <= i ensures RunningTotal(s, j) <= draw { TotalsGrow(s, j, i); }
        assert Drawn(s, draw, i);
      }
      if draw in DrawsOf(s, i) && i > 0 { assert RunningTotal(s, i) <= draw; }
    }
    RangeSize(DrawsOf(s, i), RunningTotal(s, i), RunningTotal(s, i + 1));
  }

  // The draw is exactly proportional to the weights if and only if no weight is negative.
  lemma WeightedIsProportional(s: seq<Provider>)
    ensures (forall i :: 0 <= i < |s| ==> |DrawsOf(s, i)| == s[i].weight) <==> NoNegativeWeight(s)
  {
    if NoNegativeWeight(s) {
      forall i | 0 <= i < |s| ensures |DrawsOf(s, i)| == s[i].weight { DrawsAreWeight(s, i); }
    } else {
      var i :| 0 <= i < |s| && s[i].weight < 0;
      assert |DrawsOf(s, i)| >= 0;
    }
  }

  // What each strategy promises of its pick.
  ghost predicate Chosen(strat: Strategy, p: Provider, providers: seq<Provider>, costModels: seq<Model>,
                         modelID: string, draw: int)
    requires providers != []
  {
    match strat
    case Latency => LatencyPick(providers, p)
    case Weighted => WeightedPick(providers, draw, p)
    case Tier => TierPick(providers, p)
    case _ => IsBest(p, providers, (q: Provider) => SortKey(strat, q, costModels, modelID))
  }

  // ---- What the strategies mean, without keys ----

  // The cost of p for a model: input plus output cost of the first row of p under the model's id
  // or name, else 0.1.
  ghost predicate Costs(p: Provider, models: seq<Model>, name: string, cost: real) {
    || (exists i :: 0 <= i < |models| && IsRowOf(p, models[i], name)
                    && cost == models[i].inputCostPer1k + models[i].outputCostPer1k
                    && forall j :: 0 <= j < i ==> !IsRowOf(p, models[j], name))
    || (cost == 0.1 && forall j :: 0 <= j < |models| ==> !IsRowOf(p, models[j], name))
  }

  predicate IsRowOf(p: Provider, m: Model, name: string) {
    m.providerID == p.id && name in [m.modelID, m.modelName]
  }

  lemma {:induction false} ProviderCosts(p: Provider, models: seq<Model>, name: string, cost: real)
    ensures Costs(p, models, name, cost) <==> cost == ProviderCost(p, models, name)
  {
    if models != [] && !IsRowOf(p, models[0], name) {
      ProviderCosts(p, models[1..], name, cost);
      CostsNext(p, models, name, cost);
    }
  }

  lemma CostsNext(p: Provider, models: seq<Model>, name: string, cost: real)
    requires models != [] && !IsRowOf(p, models[0], name)
    ensures Costs(p, models, name, cost) <==> Costs(p, models[1..], name, cost)
  {
    var rest := models[1..];
    assert forall i :: 0 < i < |models| ==> models[i] == rest[i-1];
    if i :| 0 <= i < |rest| && IsRowOf(p, rest[i], name) && cost == rest[i].inputCostPer1k + rest[i].outputCostPer1k
            && forall j :: 0 <= j < i ==> !IsRowOf(p, rest[j], name) {
      assert models[i+1] == rest[i];
      assert forall j :: 0 < j < i + 1 ==> !IsRowOf(p, models[j], name);
    }
  }

  // In the ranking a comes before b only if the strategy does not prefer b: for latency and cost
  // the smaller comes first, for every other strategy the greater priority.
  ghost predicate MayPrecede(strat: Strategy, a: Provider, b: Provider, models: seq<Model>, name: string) {
    match strat
    case Latency => a.lastLatencyMs <= b.lastLatencyMs
    case Cost => forall c, d :: Costs(a, models, name, c) && Costs(b, models, name, d) ==> c <= d
    case _ => a.priority >= b.priority
  }

  lemma RankingFollows(list: seq<Provider>, eligible: seq<Provider>, strat: Strategy, models: seq<Model>, name: string)
    requires IsRanking(list, eligible, (p: Provider) => SortKey(strat, p, models, name))
    ensures forall i, j :: 0 <= i < j < |list| ==> MayPrecede(strat, list[i], list[j], models, name)
  {
    var key := (p: Provider) => SortKey(strat, p, models, name);
    forall i, j | 0 <= i < j < |list|
      ensures MayPrecede(strat, list[i], list[j], models, name)
    {
      assert key(list[i]) <= key(list[j]);
      KeyOrder(strat, list[i], list[j], models, name);
    }
  }

  lemma KeyOrder(strat: Strategy, a: Provider, b: Provider, models: seq<Model>, name: string)
    requires SortKey(strat, a, models, name) <= SortKey(strat, b, models, name)
    ensures MayPrecede(strat, a, b, models, name)
  {
    if strat == Cost {
      forall c, d | Costs(a, models, name, c) && Costs(b, models, name, d)
        ensures c <= d
      {
        ProviderCosts(a, models, name, c);
        ProviderCosts(b, models, name, d);
      }
    }
  }

  // The tier that is used before another.
  predicate EarlierTier(t: string, u: string) {
    || (t !in ["cheap", "free"] && u in ["cheap", "free"])
    || (t == "cheap" && u == "free")
  }

  // The draw lies below the sum of the weights through i, and not below any earlier sum.
  ghost predicate Crosses(s: seq<Provider>, draw: int, i: nat)
    requires i < |s|
  {
    draw < Total(s[..i]) + s[i].weight && forall j :: 1 <= j <= i ==> Total(s[..j]) <= draw
  }

  // What each strategy promises of its pick among the eligible providers.
  ghost predicate Promised(strat: Strategy, p: Provider, eligible: seq<Provider>, models: seq<Model>, name: string,
                           draw: int)
    requires eligible != []
  {
    match strat
    case Latency =>
      if exists q :: q in eligible && q.lastLatencyMs > 0
      then && p.lastLatencyMs > 0
           && forall q :: q in eligible && q.lastLatencyMs > 0 ==> p.lastLatencyMs <= q.lastLatencyMs
      else forall q :: q in eligible ==> p.lastLatencyMs <= q.lastLatencyMs
    case Cost => forall q :: q in eligible ==> MayPrecede(Cost, p, q, models, name)
    case Tier =>
      forall q :: q in eligible ==>
        !EarlierTier(q.tier, p.tier) && (EarlierTier(p.tier, q.tier) || p.priority >= q.priority)
    case Weighted =>
      if Total(eligible) == 0 then p == eligible[0]
      else exists i :: 0 <= i < |eligible| && p == eligible[i] && Crosses(eligible, draw, i)
    case _ => forall q :: q in eligible ==> p.priority >= q.priority
  }

  lemma PickKeepsPromise(strat: Strategy, p: Provider, eligible: seq<Provider>, models: seq<Model>, name: string,
                         draw: int)
    requires eligible != [] && Chosen(strat, p, eligible, models, name, draw)
    ensures Promised(strat, p, eligible, models, name, draw)
  {
    match strat {
      case Latency =>
      case Weighted => WeightedPromise(p, eligible, draw);
      case Tier => TierPromise(p, eligible);
      case _ => BestPromise(strat, p, eligible, models, name);
    }
  }

  lemma WeightedPromise(p: Provider, eligible: seq<Provider>, draw: int)
    requires eligible != [] && WeightedPick(eligible, draw, p)
    ensures Promised(Weighted, p, eligible, [], "", draw)
  {
    if Total(eligible) != 0 {
      var i: nat :| Drawn(eligible, draw, i) && p == eligible[i];
      DrawnCrosses(eligible, draw, i);
    }
  }

  lemma DrawnCrosses(s: seq<Provider>, draw: int, i: nat)
    requires Drawn(s, draw, i)
    ensures Crosses(s, draw, i)
  {
    assert s[..i+1] == s[..i] + [s[i]];
    TotalSnoc(s[..i], s[i]);
    forall j | 1 <= j <= i
      ensures Total(s[..j]) <= draw
    {
      assert RunningTotal(s, j) <= draw;
    }
  }

  lemma TierPromise(p: Provider, eligible: seq<Provider>)
    requires eligible != [] && TierPick(eligible, p)
    ensures Promised(Tier, p, eligible, [], "", 0)
  {
    assert "cheap"[0] != "free"[0];
    forall q | q in eligible
      ensures !EarlierTier(q.tier, p.tier) && (EarlierTier(p.tier, q.tier) || p.priority >= q.priority)
    {
      assert !TierBefore(q, p);
    }
  }

  lemma BestPromise(strat: Strategy, p: Provider, eligible: seq<Provider>, models: seq<Model>, name: string)
    requires IsBest(p, eligible, (q: Provider) => SortKey(strat, q, models, name))
    ensures forall q :: q in eligible ==> MayPrecede(strat, p, q, models, name)
  {
    var key := (q: Provider) => SortKey(strat, q, models, name);
    forall q | q in eligible
      ensures MayPrecede(strat, p, q, models, name)
    {
      assert key(p) <= key(q);
      KeyOrder(strat, p, q, models, name);
    }
  }

  lemma TotalSnoc(s: seq<Provider>, p: Provider)
    ensures Total(s + [p]) == Total(s) + p.weight
  {
    assert (s + [p])[..|s|] == s;
  }

  // ---- The choice ----

  // selectByStrategy on the active providers.
  method SelectByStrategy(strat: Strategy, providers: seq<Provider>, costModels: seq<Model>, modelID: string, draw: int)
    returns (p: Provider)
    requires providers != [] && (strat == Weighted ==> Total(providers) >= 0)
    requires strat == Weighted && Total(providers) > 0 ==> 0 <= draw < Total(providers)
    ensures p in providers && Chosen(strat, p, providers, costModels, modelID, draw)
  {
    match strat {
      case Latency => p := ByLatency(providers);
      case Weighted => p := ByWeighted(providers, draw);
      case Tier => p := ByTier(providers);
      case Cost =>
        if costModels == [] { p := providers[0]; }
        else { p := ByKey(providers, (q: Provider) => SortKey(strat, q, costModels, modelID)); }
      case _ => p := ByKey(providers, (q: Provider) => SortKey(strat, q, costModels, modelID));
    }
  }

  // SelectProviderForModel: None stands for every error and empty answer of the source.
  method SelectProviderForModel(strat: Strategy, models: seq<Model>, costModels: seq<Model>, providers: seq<Provider>,
                                modelID: string, now: int, draw: int)
    returns (p: Option<Provider>)
    requires strat == Weighted ==>
               var t := Total(Eligible(providers, models, modelID, now)); t >= 0 && (t > 0 ==> 0 <= draw < t)
    ensures p.None? <==> Eligible(providers, models, modelID, now) == []
    ensures p.Some? ==> p.value in Eligible(providers, models, modelID, now)
                        && Chosen(strat, p.value, Eligible(providers, models, modelID, now), costModels, modelID, draw)
    ensures p.Some? ==> Promised(strat, p.value, Eligible(providers, models, modelID, now), costModels, modelID, draw)
  {
    var active, failed := FindActive(models, providers, modelID, now);
    if active == [] {
      return None;
    }
    var choice := SelectByStrategy(strat, active, costModels, modelID, draw);
    PickKeepsPromise(strat, choice, active, costModels, modelID, draw);
    return Some(choice);
  }

  lemma HeadIsBest(list: seq<Provider>, eligible: seq<Provider>, key: Provider -> real)
    requires IsRanking(list, eligible, key) && eligible != []
    ensures list != [] && IsBest(list[0], eligible, key)
  {
    SameMembers(list, eligible);
    assert eligible[0] in list;
    assert list[0] in list;
    forall q | q in eligible
      ensures key(list[0]) <= key(q)
    {
      assert q in list;
      var i :| 0 <= i < |list| && list[i] == q;
      if i > 0 { assert key(list[0]) <= key(list[i]); }
    }
  }

  // Under priority, fallback and cost, the ranking starts with a provider as good as the one
  // the single choice picks.
  lemma HeadMatchesChoice(list: seq<Provider>, eligible: seq<Provider>, key: Provider -> real, p: Provider)
    requires IsRanking(list, eligible, key) && IsBest(p, eligible, key)
    ensures list != [] && key(list[0]) == key(p)
  {
    HeadIsBest(list, eligible, key);
  }

  // Under latency they agree exactly when unmeasured and measured providers do not mix.
  lemma LatencyHeadMatchesWhen(list: seq<Provider>, eligible: seq<Provider>, key: Provider -> real, p: Provider)
    requires key == ((q: Provider) => q.lastLatencyMs as real)
    requires IsRanking(list, eligible, key) && LatencyPick(eligible, p)
    ensures list != []
    ensures list[0].lastLatencyMs == p.lastLatencyMs <==>
              || (forall q :: q in eligible ==> q.lastLatencyMs > 0)
              || (forall q :: q in eligible ==> q.lastLatencyMs <= 0)
  {
    HeadIsBest(list, eligible, key);
    assert forall q :: q in eligible && key(list[0]) <= key(q) ==> list[0].lastLatencyMs <= q.lastLatencyMs;
  }

  // Two providers, one measured at 100 ms and one not yet: the ranking starts with the unmeasured
  // one, and the single choice is the other.
  lemma LatencyRankingMayDiffer(now: int)
    ensures var unmeasured := Provider("u", "active", None, 0, 1, "", 0);
            var measured := Provider("v", "active", None, 0, 1, "", 100);
            var models := [Model("1", "u", "m", "m", 0.0, 0.0), Model("2", "v", "m", "m", 0.0, 0.0)];
            var eligible := Eligible([unmeasured, measured], models, "m", now);
            && IsRanking([unmeasured, measured], eligible, (p: Provider) => SortKey(Latency, p, models, "m"))
            && LatencyPick(eligible, measured) && !LatencyPick(eligible, unmeasured)
  {
    var unmeasured := Provider("u", "active", None, 0, 1, "", 0);
    var measured := Provider("v", "active", None, 0, 1, "", 100);
    var models := [Model("1", "u", "m", "m", 0.0, 0.0), Model("2", "v", "m", "m", 0.0, 0.0)];
    BothEligible(unmeasured, measured, models, "m", now);
    assert measured in [unmeasured, measured] && measured.lastLatencyMs > 0;
  }

  // Under tier, whose ranking goes by priority alone, the head is as good as the pick exactly
  // when it is of the same tier, and then the single choice could have returned it as well.
  lemma TierHeadMatchesWhen(list: seq<Provider>, eligible: seq<Provider>, key: Provider -> real, p: Provider,
                            models: seq<Model>, modelID: string)
    requires forall q :: key(q) == SortKey(Tier, q, models, modelID)
    requires IsRanking(list, eligible, key) && TierPick(eligible, p)
    ensures list != []
    ensures !TierBefore(p, list[0]) <==> TierOrder(list[0].tier) == TierOrder(p.tier)
    ensures !TierBefore(p, list[0]) <==> TierPick(eligible, list[0])
  {
    HeadIsBest(list, eligible, key);
    assert forall q: Provider :: q in eligible && key(list[0]) <= key(q) ==> q.priority <= list[0].priority;
  }

  // The sort is not stable, so what matters is every ranking: each starts with a provider the
  // single choice could return if and only if each provider of the highest priority is of the
  // first tier there is.
  lemma TierRankingsAgreeIff(eligible: seq<Provider>, key: Provider -> real, models: seq<Model>, modelID: string)
    requires forall q :: key(q) == SortKey(Tier, q, models, modelID)
    requires eligible != []
    ensures (forall list :: IsRanking(list, eligible, key) ==> list != [] && TierPick(eligible, list[0]))
       <==> (forall p, q :: p in eligible && q in eligible && (forall o :: o in eligible ==> o.priority <= p.priority)
                            ==> TierOrder(p.tier) <= TierOrder(q.tier))
  {
    if forall list :: IsRanking(list, eligible, key) ==> list != [] && TierPick(eligible, list[0]) {
      forall p, q | p in eligible && q in eligible && (forall o :: o in eligible ==> o.priority <= p.priority)
        ensures TierOrder(p.tier) <= TierOrder(q.tier)
      {
        assert forall o: Provider :: o.priority <= p.priority ==> key(p) <= key(o);
        var list := RankingFrom(eligible, p, key);
        assert !TierBefore(q, list[0]);
      }
    }
    if forall p, q :: p in eligible && q in eligible && (forall o :: o in eligible ==> o.priority <= p.priority)
                      ==> TierOrder(p.tier) <= TierOrder(q.tier) {
      forall list: seq<Provider> | IsRanking(list, eligible, key)
        ensures list != [] && TierPick(eligible, list[0])
      {
        HeadIsBest(list, eligible, key);
        assert forall o: Provider :: o in eligible && key(list[0]) <= key(o) ==> o.priority <= list[0].priority;
      }
    }
  }

  // Any provider with a least key can come first.
  lemma RankingFrom(eligible: seq<Provider>, p: Provider, key: Provider -> real) returns (list: seq<Provider>)
    requires IsBest(p, eligible, key)
    ensures IsRanking(list, eligible, key) && list != [] && list[0] == p
  {
    var i :| 0 <= i < |eligible| && eligible[i] == p;
    var others := eligible[..i] + eligible[i+1..];
    var rest := RankingOf(others, key);
    list := [p] + rest;
    assert eligible == eligible[..i] + [p] + eligible[i+1..];
    SameMembers(rest, others);
    BestFirst(p, rest, eligible, key);
  }

  lemma BestFirst(p: Provider, rest: seq<Provider>, eligible: seq<Provider>, key: Provider -> real)
    requires IsBest(p, eligible, key) && SortedBy(key, rest) && forall q :: q in rest ==> q in eligible
    ensures SortedBy(key, [p] + rest)
  {
    var list := [p] + rest;
    forall i, j | 0 <= i < j < |list|
      ensures key(list[i]) <= key(list[j])
    {
      assert list[j] == rest[j-1] && rest[j-1] in rest;
      assert i > 0 ==> list[i] == rest[i-1];
    }
  }

  lemma {:induction false} RankingOf(s: seq<Provider>, key: Provider -> real) returns (list: seq<Provider>)
    ensures IsRanking(list, s, key)
  {
    list := [];
    if s != [] {
      var p := s[|s|-1];
      var rest := RankingOf(s[..|s|-1], key);
      var k := InsertPoint(rest, p, key);
      InsertKeeps(rest, p, k);
      InsertSorts(rest, p, k, key);
      list := rest[..k] + [p] + rest[k..];
      assert s == s[..|s|-1] + [p];
    }
  }

  ghost function InsertPoint(s: seq<Provider>, p: Provider, key: Provider -> real): (k: nat)
    ensures k <= |s| && (forall i :: k <= i < |s| ==> key(p) < key(s[i])) && (k > 0 ==> key(s[k-1]) <= key(p))
  {
    if s == [] || key(s[|s|-1]) <= key(p) then |s| else InsertPoint(s[..|s|-1], p, key)
  }

  // Two providers under the tier strategy: the ranking starts with the free one, of priority
  // 10, and the single choice is the cheap one, of priority 5.
  lemma TierRankingMayDiffer(now: int)
    ensures var free := Provider("f", "active", None, 10, 1, "free", 0);
            var cheap := Provider("c", "active", None, 5, 1, "cheap", 0);
            var models := [Model("1", "f", "m", "m", 0.0, 0.0), Model("2", "c", "m", "m", 0.0, 0.0)];
            var eligible := Eligible([free, cheap], models, "m", now);
            && IsRanking([free, cheap], eligible, (p: Provider) => SortKey(Tier, p, models, "m"))
            && TierPick(eligible, cheap) && TierBefore(cheap, free)
  {
    var free := Provider("f", "active", None, 10, 1, "free", 0);
    var cheap := Provider("c", "active", None, 5, 1, "cheap", 0);
    var models := [Model("1", "f", "m", "m", 0.0, 0.0), Model("2", "c", "m", "m", 0.0, 0.0)];
    var eligible := Eligible([free, cheap], models, "m", now);
    BothEligible(free, cheap, models, "m", now);
    FreeComesLast(free, cheap);
    Ranked(free, cheap, models, "m");
    assert eligible == [free, cheap];
  }

  lemma Ranked(p: Provider, q: Provider, models: seq<Model>, modelID: string)
    requires p.priority >= q.priority
    ensures IsRanking([p, q], [p, q], (r: Provider) => SortKey(Tier, r, models, modelID))
  {
  }

  lemma BothEligible(p: Provider, q: Provider, models: seq<Model>, modelID: string, now: int)
    requires |models| == 2 && Matches(models[0], modelID) && Matches(models[1], modelID)
    requires models[0].providerID == p.id && models[1].providerID == q.id && Ready(p, now) && Ready(q, now)
    ensures Eligible([p, q], models, modelID, now) == [p, q]
  {
    FilterAll((r: Provider) => Serves(models, r, modelID) && Ready(r, now), [p, q]);
  }

  lemma FreeComesLast(free: Provider, cheap: Provider)
    requires free.tier == "free" && cheap.tier == "cheap"
    ensures TierBefore(cheap, free) && TierPick([free, cheap], cheap)
  {
    assert |free.tier| == 4 && |cheap.tier| == 5;
  }
}
