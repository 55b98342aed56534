/** The monthly quota: the check made before a request and the usage charged after it, for one
    request and for any interleaving of many. The store has the meaning of the SQL statements. */
module Quota {
  import opened Sets

  // Times are whole seconds; costs are real numbers.
  datatype Row = Row(tokenCap: int, costCap: real, usedTokens: int, usedCost: real, resetAt: int)

  datatype Verdict = Allow | Deny(retryAfter: int, quotaType: string)

  function Wait(resetAt: int, now: int): int {
    if resetAt - now < 60 then 60 else resetAt - now
  }

  predicate Exhausted(used: int, usedCost: real, row: Row) {
    (row.tokenCap > 0 && used >= row.tokenCap) || (row.costCap > 0.0 && usedCost >= row.costCap)
  }

  function Judge(row: Row, now: int): Verdict {
    if row.tokenCap > 0 && row.usedTokens >= row.tokenCap then
      Deny(Wait(row.resetAt, now), "monthly_token_quota_exceeded")
    else if row.costCap > 0.0 && row.usedCost >= row.costCap then
      Deny(Wait(row.resetAt, now), "monthly_cost_quota_exceeded")
    else Allow
  }

  predicate Expired(row: Row, now: int) { row.resetAt < now }

  // ResetMonthly; nextMonth is now.AddDate(0, 1, 0).
  function Cleared(row: Row, nextMonth: int): Row {
    row.(usedTokens := 0, usedCost := 0.0, resetAt := nextMonth)
  }

  // The row and the verdict of one whole check.
  function Checked(row: Row, now: int, nextMonth: int): (Row, Verdict) {
    if Expired(row, now) then (Cleared(row, nextMonth), Allow) else (row, Judge(row, now))
  }

  type User = string

  class QuotaStore {
    var rows: map<User, Row>

    constructor (rows: map<User, Row>)
      ensures this.rows == rows
    {
      this.rows := rows;
    }

    method ResetMonthly(userID: User, nextMonth: int)
      modifies this
      ensures rows.Keys == old(rows).Keys
      ensures forall u :: u in rows && u != userID ==> rows[u] == old(rows)[u]
      ensures userID in rows ==>
                rows[userID] == old(rows)[userID].(usedTokens := 0, usedCost := 0.0, resetAt := nextMonth)
    {
      if userID in rows {
        rows := rows[userID := rows[userID].(usedTokens := 0, usedCost := 0.0, resetAt := nextMonth)];
      }
    }

    method IncrementUsage(userID: User, tokens: int, cost: real)
      modifies this
      ensures rows.Keys == old(rows).Keys
      ensures forall u :: u in rows && u != userID ==> rows[u] == old(rows)[u]
      ensures userID in rows ==>
                rows[userID] == old(rows)[userID].(usedTokens := old(rows)[userID].usedTokens + tokens,
                                                   usedCost := old(rows)[userID].usedCost + cost)
    {
      if userID in rows {
        var row := rows[userID];
        rows := rows[userID := row.(usedTokens := row.usedTokens + tokens, usedCost := row.usedCost + cost)];
      }
    }

    // An expired month is cleared first, and is then never a reason to deny.
    method CheckQuota(userID: User, now: int, nextMonth: int) returns (verdict: Verdict)
      modifies this
      ensures userID !in old(rows) ==> verdict == Allow && rows == old(rows)
      ensures userID in old(rows) ==>
                var (row, v) := Checked(old(rows)[userID], now, nextMonth);
                rows == old(rows)[userID := row] && verdict == v
      ensures userID in old(rows) && old(rows)[userID].resetAt < now ==>
                verdict == Allow
                && rows[userID] == old(rows)[userID].(usedTokens := 0, usedCost := 0.0, resetAt := nextMonth)
      ensures userID in old(rows) && !Expired(old(rows)[userID], now) ==>
                (verdict == Allow <==> !Exhausted(rows[userID].usedTokens, rows[userID].usedCost, rows[userID]))
      ensures verdict.Deny? ==> verdict.retryAfter >= 60 && now + verdict.retryAfter >= rows[userID].resetAt
      // Otherwise nothing is written, and a request is denied once a positive cap is used up.
      ensures userID in old(rows) && old(rows)[userID].resetAt >= now ==>
                var q := old(rows)[userID];
                var wait := if q.resetAt - now < 60 then 60 else q.resetAt - now;
                && rows == old(rows)
                && verdict == if 0 < q.tokenCap <= q.usedTokens then Deny(wait, "monthly_token_quota_exceeded")
                              else if 0.0 < q.costCap <= q.usedCost then Deny(wait, "monthly_cost_quota_exceeded")
                              else Allow
    {
      if userID !in rows {
        return Allow;
      }
      var quota := rows[userID];
      if quota.resetAt < now {
        ResetMonthly(userID, nextMonth);
        quota := quota.(usedTokens := 0, usedCost := 0.0, resetAt := nextMonth);
      }
      if quota.tokenCap > 0 && quota.usedTokens >= quota.tokenCap {
        var retryAfter := quota.resetAt - now;
        if retryAfter < 60 { retryAfter := 60; }
        return Deny(retryAfter, "monthly_token_quota_exceeded");
      }
      if quota.costCap > 0.0 && quota.usedCost >= quota.costCap {
        var retryAfter := quota.resetAt - now;
        if retryAfter < 60 { retryAfter := 60; }
        return Deny(retryAfter, "monthly_cost_quota_exceeded");
      }
      return Allow;
    }
  }

  // ---- Interleavings on one user's row ----

  type Request = nat

  // Requests between reading an expired row and clearing it, and requests that were admitted
  // and have not finished.
  datatype State = State(row: Row, resetting: set<Request>, inflight: set<Request>)

  datatype Step =
    | Read(request: Request, now: int)
    | Reset(request: Request, nextMonth: int)
    | Charge(request: Request, tokens: int, cost: real)
    | Fail(request: Request)

  predicate Active(s: State, r: Request) { r in s.resetting || r in s.inflight }

  // One atomic statement of one request. A step of a request that is elsewhere does nothing.
  function Next(s: State, step: Step): State {
    match step
    case Read(r, now) =>
      if Active(s, r) then s
      else if Expired(s.row, now) then s.(resetting := s.resetting + {r})
      else if Judge(s.row, now).Allow? then s.(inflight := s.inflight + {r})
      else s
    case Reset(r, nextMonth) =>
      if r !in s.resetting then s
      else s.(row := Cleared(s.row, nextMonth), resetting := s.resetting - {r}, inflight := s.inflight + {r})
    case Charge(r, tokens, cost) =>
      if r !in s.inflight then s
      else s.(row := s.row.(usedTokens := s.row.usedTokens + tokens, usedCost := s.row.usedCost + cost),
              inflight := s.inflight - {r})
    case Fail(r) => s.(inflight := s.inflight - {r})
  }

  // A check that nothing comes between is a Read followed by a Reset, which does nothing unless
  // the row had expired: the store's row, and whether the request is in flight afterwards.
  lemma CheckIsReadAndReset(s: State, r: Request, now: int, nextMonth: int)
    requires !Active(s, r)
    ensures var (row, verdict) := Checked(s.row, now, nextMonth);
            Next(Next(s, Read(r, now)), Reset(r, nextMonth))
            == State(row, s.resetting, if verdict.Allow? then s.inflight + {r} else s.inflight)
  {
    assert s.resetting + {r} - {r} == s.resetting;
  }

  function After(row: Row, steps: seq<Step>): State {
    if steps == [] then State(row, {}, {})
    else Next(After(row, steps[..|steps|-1]), steps[|steps|-1])
  }

  // At most c requests are admitted and unfinished at any time, and no request charges more than
  // m tokens or mc cost. Any number of others may be about to clear an expired row.
  ghost predicate Bounded(row: Row, steps: seq<Step>, c: nat, m: nat, mc: real) {
    && mc >= 0.0
    && (forall n :: 0 <= n <= |steps| ==> |After(row, steps[..n]).inflight| <= c)
    && (forall n :: 0 <= n < |steps| && steps[n].Charge? ==> steps[n].tokens <= m && steps[n].cost <= mc)
  }

  // n charges of m tokens, or of mc.
  function Owed(n: nat, m: nat): nat { if n == 0 then 0 else Owed(n - 1, m) + m }
  function OwedCost(n: nat, mc: real): real { if n == 0 then 0.0 else OwedCost(n - 1, mc) + mc }

  lemma {:induction false} OwedIsProduct(n: nat, m: nat, mc: real)
    ensures Owed(n, m) == n * m && OwedCost(n, mc) == (n as real) * mc
  {
    if n > 0 {
      OwedIsProduct(n - 1, m, mc);
      assert n * m == (n - 1) * m + m;
      assert (n as real) * mc == ((n - 1) as real) * mc + mc;
    }
  }

  lemma {:induction false} OwedGrows(a: nat, b: nat, m: nat, mc: real)
    requires a <= b && mc >= 0.0
    ensures Owed(a, m) <= Owed(b, m) && 0.0 <= OwedCost(a, mc) <= OwedCost(b, mc)
    decreases b
  {
    if a < b {
      OwedGrows(a, b - 1, m, mc);
    } else if a > 0 {
      OwedGrows(a - 1, b - 1, m, mc);
    }
  }

  // What is used, and what the admitted requests may still add, stays under the bound.
  ghost predicate Room(s: State, c: nat, m: nat, mc: real) {
    && |s.inflight| <= c
    && (s.row.tokenCap > 0 ==> s.row.usedTokens + Owed(|s.inflight|, m) <= s.row.tokenCap - 1 + Owed(c, m))
    && (s.row.costCap > 0.0 ==> s.row.usedCost + OwedCost(|s.inflight|, mc) < s.row.costCap + OwedCost(c, mc))
  }

  lemma NextKeepsRoom(s: State, step: Step, c: nat, m: nat, mc: real)
    requires Room(s, c, m, mc) && mc >= 0.0
    requires |Next(s, step).inflight| <= c
    requires step.Charge? ==> step.tokens <= m && step.cost <= mc
    ensures Room(Next(s, step), c, m, mc)
  {
    var t := Next(s, step);
    OwedGrows(|t.inflight|, c, m, mc);
    if step.Charge? && step.request in s.inflight {
      assert s.inflight == t.inflight + {step.request};
      assert |s.inflight| == |t.inflight| + 1;
    } else if step.Fail? {
      SubsetSize(t.inflight, s.inflight);
      OwedGrows(|t.inflight|, |s.inflight|, m, mc);
    }
  }

  lemma {:induction false} RunsKeepRoom(row: Row, steps: seq<Step>, c: nat, m: nat, mc: real)
    requires !Exhausted(row.usedTokens, row.usedCost, row) && Bounded(row, steps, c, m, mc)
    ensures Room(After(row, steps), c, m, mc)
  {
    if steps == [] {
      OwedGrows(0, c, m, mc);
      assert steps[..0] == steps;
    } else {
      var front := steps[..|steps|-1];
      assert forall n :: 0 <= n <= |front| ==> front[..n] == steps[..n];
      RunsKeepRoom(row, front, c, m, mc);
      assert steps[..|steps|] == steps;
      NextKeepsRoom(After(row, front), steps[|steps|-1], c, m, mc);
    }
  }

  // However admissions, completions and resets interleave, usage overshoots a cap by less than
  // what the requests in flight at once may charge.
  lemma OvershootIsBounded(row: Row, steps: seq<Step>, c: nat, m: nat, mc: real)
    requires !Exhausted(row.usedTokens, row.usedCost, row) && Bounded(row, steps, c, m, mc)
    ensures row.tokenCap > 0 ==> After(row, steps).row.usedTokens <= row.tokenCap - 1 + c * m
    ensures row.costCap > 0.0 ==> After(row, steps).row.usedCost < row.costCap + (c as real) * mc
  {
    RunsKeepRoom(row, steps, c, m, mc);
    CapsAreKept(row, steps);
    OwedGrows(0, |After(row, steps).inflight|, m, mc);
    OwedIsProduct(c, m, mc);
  }

  lemma {:induction false} CapsAreKept(row: Row, steps: seq<Step>)
    ensures After(row, steps).row.tokenCap == row.tokenCap && After(row, steps).row.costCap == row.costCap
  {
    if steps != [] {
      CapsAreKept(row, steps[..|steps|-1]);
    }
  }

  predicate Clears(s: State, step: Step) { step.Reset? && step.request in s.resetting }

  predicate Charges(s: State, step: Step) { step.Charge? && step.request in s.inflight }

  // The tokens charged by admitted requests from step `from` on.
  function ChargedFrom(row: Row, steps: seq<Step>, from: nat): int
    requires from <= |steps|
    decreases |steps|
  {
    if from == |steps| then 0
    else
      var last := |steps| - 1;
      ChargedFrom(row, steps[..last], from)
      + if Charges(After(row, steps[..last]), steps[last]) then steps[last].tokens else 0
  }

  // And their cost.
  function ChargedCostFrom(row: Row, steps: seq<Step>, from: nat): real
    requires from <= |steps|
    decreases |steps|
  {
    if from == |steps| then 0.0
    else
      var last := |steps| - 1;
      ChargedCostFrom(row, steps[..last], from)
      + if Charges(After(row, steps[..last]), steps[last]) then steps[last].cost else 0.0
  }

  // The number of steps up to and including the last clearing; 0 when there was none.
  function LastClear(row: Row, steps: seq<Step>): (n: nat)
    ensures n <= |steps|
  {
    if steps == [] then 0
    else
      var last := |steps| - 1;
      if Clears(After(row, steps[..last]), steps[last]) then |steps| else LastClear(row, steps[..last])
  }

  // The row holds exactly what has been charged since it was last cleared, on top of what it
  // held at the start when it never was.
  lemma {:induction false} UsedIsCharged(row: Row, steps: seq<Step>)
    ensures var n := LastClear(row, steps);
            After(row, steps).row.usedTokens
            == (if n > 0 then 0 else row.usedTokens) + ChargedFrom(row, steps, n)
    ensures var n := LastClear(row, steps);
            After(row, steps).row.usedCost
            == (if n > 0 then 0.0 else row.usedCost) + ChargedCostFrom(row, steps, n)
  {
    if steps != [] {
      UsedIsCharged(row, steps[..|steps|-1]);
    }
  }

  // The bound is reached: c requests admitted on the last free token, then each charging m.
  lemma OvershootIsReached(row: Row, c: nat, m: nat, now: int)
    requires row.tokenCap > 0 && row.usedTokens == row.tokenCap - 1 && row.costCap <= 0.0 && !Expired(row, now)
    ensures exists steps :: Bounded(row, steps, c, m, 0.0)
              && After(row, steps).row.usedTokens == row.tokenCap - 1 + c * m
  {
    var steps := Rush(c, c, m, now);
    RushRuns(row, c, c, m, now);
    forall n | 0 <= n <= |steps|
      ensures |After(row, steps[..n]).inflight| <= c
    {
      RushPrefix(c, c, m, now, n);
      if n <= c { RushRuns(row, n, 0, m, now); } else { RushRuns(row, c, n - c, m, now); }
      RangeSize(After(row, steps[..n]).inflight, if n <= c then 0 else n - c, if n <= c then n else c);
    }
    assert steps[..|steps|] == steps;
    RushShape(c, c, m, now);
    OwedIsProduct(c, m, 0.0);
  }

  // Requests 0..a are admitted, then requests 0..b of them charge m each.
  function Rush(a: nat, b: nat, m: nat, now: int): (steps: seq<Step>)
    requires b <= a
    ensures |steps| == a + b
    decreases a + b
  {
    if b > 0 then Rush(a, b - 1, m, now) + [Charge(b - 1, m, 0.0)]
    else if a > 0 then Rush(a - 1, 0, m, now) + [Read(a - 1, now)]
    else []
  }

  lemma {:induction false} RushShape(a: nat, b: nat, m: nat, now: int)
    requires b <= a
    ensures forall n :: 0 <= n < a + b && Rush(a, b, m, now)[n].Charge? ==>
              Rush(a, b, m, now)[n].tokens <= m && Rush(a, b, m, now)[n].cost <= 0.0
    decreases a + b
  {
    if b > 0 { RushShape(a, b - 1, m, now); }
    else if a > 0 { RushShape(a - 1, 0, m, now); }
  }

  lemma {:induction false} RushPrefix(a: nat, b: nat, m: nat, now: int, n: nat)
    requires b <= a && n <= a + b
    ensures Rush(a, b, m, now)[..n] == if n <= a then Rush(n, 0, m, now) else Rush(a, n - a, m, now)
    decreases a + b
  {
    if n < a + b {
      if b > 0 { RushPrefix(a, b - 1, m, now, n); }
      else { RushPrefix(a - 1, 0, m, now, n); }
    }
  }

  // Requests b..a are in flight, and the charges of the others are in the row.
  ghost predicate Rushed(s: State, row: Row, a: nat, b: nat, m: nat) {
    && s.resetting == {}
    && (forall r: nat :: r in s.inflight <==> b <= r < a)
    && s.row == row.(usedTokens := row.usedTokens + Owed(b, m))
  }

  lemma RushReads(s: State, row: Row, a: nat, m: nat, now: int)
    requires row.tokenCap > 0 && row.usedTokens == row.tokenCap - 1 && row.costCap <= 0.0 && !Expired(row, now)
    requires Rushed(s, row, a, 0, m)
    ensures Rushed(Next(s, Read(a, now)), row, a + 1, 0, m)
  {
    assert s.row == row;
    assert Judge(s.row, now).Allow?;
  }

  lemma RushCharges(s: State, row: Row, a: nat, b: nat, m: nat)
    requires Rushed(s, row, a, b, m) && b < a
    ensures Rushed(Next(s, Charge(b, m, 0.0)), row, a, b + 1, m)
  {
  }

  lemma {:induction false} RushRuns(row: Row, a: nat, b: nat, m: nat, now: int)
    requires row.tokenCap > 0 && row.usedTokens == row.tokenCap - 1 && row.costCap <= 0.0 && !Expired(row, now)
    requires b <= a
    ensures Rushed(After(row, Rush(a, b, m, now)), row, a, b, m)
    decreases a + b
  {
    var steps := Rush(a, b, m, now);
    if b > 0 {
      RushRuns(row, a, b - 1, m, now);
      assert steps[..|steps|-1] == Rush(a, b - 1, m, now);
      RushCharges(After(row, Rush(a, b - 1, m, now)), row, a, b - 1, m);
    } else if a > 0 {
      RushRuns(row, a - 1, 0, m, now);
      assert steps[..|steps|-1] == Rush(a - 1, 0, m, now);
      RushReads(After(row, Rush(a - 1, 0, m, now)), row, a - 1, m, now);
    }
  }
}
