/** What the limiter guarantees over whole runs with fixed limits: window safety, and how
    exact its retry-after answers are. */
module RateLimitSafety {
  import opened RateLimitSpec
  import opened Sets

  ghost predicate Sorted(s: seq<int>) {
    forall i, j :: 0 <= i < j < |s| ==> s[i] <= s[j]
  }

  // Any limit + 1 admissions in a row span more than one window.
  ghost predicate Spaced(s: seq<int>, limit: int, span: int) {
    limit > 0 ==> forall i {:trigger s[i]} :: 0 <= i && i + limit < |s| ==> s[i + limit] - s[i] > span
  }

  ghost predicate FixedLimits(events: seq<Event>, user: User, limits: Limits) {
    forall i :: 0 <= i < |events| && events[i].Check? && events[i].user == user ==> events[i].limits == limits
  }

  // k splits s into what lies before cutoff and what does not.
  ghost predicate Cuts(s: seq<int>, cutoff: int, k: nat) {
    && k <= |s|
    && (forall i :: 0 <= i < k ==> s[i] < cutoff)
    && (forall i :: k <= i < |s| ==> s[i] >= cutoff)
  }

  // In a sorted list, what lies at or after a cutoff is a suffix.
  lemma SinceIsSuffix(s: seq<int>, cutoff: int) returns (k: nat)
    requires Sorted(s)
    ensures Cuts(s, cutoff, k) && Since(s, cutoff) == s[k..]
  {
    k := 0;
    while k < |s| && s[k] < cutoff
      invariant k <= |s| && forall i :: 0 <= i < k ==> s[i] < cutoff
    {
      k := k + 1;
    }
    SinceOfCut(s, cutoff, k);
  }

  lemma SuffixSnoc<T>(s: seq<T>, k: nat)
    requires k < |s|
    ensures s[k..] == s[..|s|-1][k..] + [s[|s|-1]]
  {
  }

  lemma {:induction false} SinceOfCut(s: seq<int>, cutoff: int, k: nat)
    requires Cuts(s, cutoff, k)
    ensures Since(s, cutoff) == s[k..]
  {
    if s != [] {
      var n := |s| - 1;
      if k == |s| {
        SinceOfCut(s[..n], cutoff, n);
      } else {
        SinceOfCut(s[..n], cutoff, k);
        SuffixSnoc(s, k);
      }
    }
  }

  lemma AdmissionKeepsSpacing(s: seq<int>, limit: int, span: int, now: int)
    requires Sorted(s) && Spaced(s, limit, span) && (forall i :: 0 <= i < |s| ==> s[i] <= now)
    requires limit > 0 ==> |Since(s, now - span)| < limit
    ensures Sorted(s + [now]) && Spaced(s + [now], limit, span)
  {
    if limit > 0 {
      var k := SinceIsSuffix(s, now - span);
      var t := s + [now];
      forall i {:trigger t[i]} | 0 <= i && i + limit < |t|
        ensures t[i + limit] - t[i] > span
      {
        if i + limit < |s| {
          assert s[i + limit] - s[i] > span;
        } else {
          assert i < k;
        }
      }
    }
  }

  // The invariant of every run: admissions in order, spaced by both request limits.
  ghost predicate WellSpaced(s: seq<int>, limits: Limits, now: int) {
    && Sorted(s) && (forall i :: 0 <= i < |s| ==> s[i] <= now)
    && Spaced(s, limits.requestsPerMinute, MINUTE) && Spaced(s, limits.requestsPerDay, DAY)
  }

  lemma {:induction false} RunsAreWellSpaced(events: seq<Event>, user: User, limits: Limits, now: int)
    requires Monotone(events) && FixedLimits(events, user, limits)
    requires forall i :: 0 <= i < |events| ==> events[i].now <= now
    ensures WellSpaced(HistoryAfter(events, user).admissions, limits, now)
  {
    if events != [] {
      var front, e := events[..|events|-1], events[|events|-1];
      FrontFacts(events, user, limits);
      RunsAreWellSpaced(front, user, limits, e.now);
      StepKeepsSpacing(HistoryAfter(front, user), e, user, limits);
    }
  }

  lemma FrontFacts(events: seq<Event>, user: User, limits: Limits)
    requires events != [] && Monotone(events) && FixedLimits(events, user, limits)
    ensures var front, e := events[..|events|-1], events[|events|-1];
            && Monotone(front) && FixedLimits(front, user, limits)
            && (forall i :: 0 <= i < |front| ==> front[i].now <= e.now)
            && (e.Check? && e.user == user ==> e.limits == limits)
  {
  }

  lemma StepKeepsSpacing(h: History, e: Event, user: User, limits: Limits)
    requires WellSpaced(h.admissions, limits, e.now)
    requires e.Check? && e.user == user ==> e.limits == limits
    ensures WellSpaced(HistoryStep(h, e, user).admissions, limits, e.now)
  {
    if e.Check? && e.user == user {
      RememberKeepsSpacing(h, limits, e.now);
    }
  }

  lemma AllowedMeans(h: History, limits: Limits, now: int)
    requires Decide(h, limits, now).allowed
    ensures limits.requestsPerMinute > 0 ==> |Since(h.admissions, now - MINUTE)| < limits.requestsPerMinute
    ensures limits.requestsPerDay > 0 ==> |Since(h.admissions, now - DAY)| < limits.requestsPerDay
  {
  }

  lemma RememberKeepsSpacing(h: History, limits: Limits, now: int)
    requires WellSpaced(h.admissions, limits, now)
    ensures WellSpaced(Remember(h, limits, now).admissions, limits, now)
  {
    if Decide(h, limits, now).allowed {
      AllowedMeans(h, limits, now);
      AdmissionKeepsSpacing(h.admissions, limits.requestsPerMinute, MINUTE, now);
      AdmissionKeepsSpacing(h.admissions, limits.requestsPerDay, DAY, now);
    }
  }

  // The times at which calls of user were let through, read off the outputs of the run.
  function AdmissionTimes(events: seq<Event>, outputs: seq<Output>, user: User): seq<int>
    requires |events| == |outputs|
  {
    if events == [] then []
    else
      var e, out, n := events[|events|-1], outputs[|events|-1], |events| - 1;
      AdmissionTimes(events[..n], outputs[..n], user)
      + if e.Check? && e.user == user && out.Answer? && out.decision.allowed then [e.now] else []
  }

  lemma {:induction false} AdmissionsAreRemembered(events: seq<Event>, user: User)
    ensures AdmissionTimes(events, FullOutputs(events), user) == HistoryAfter(events, user).admissions
  {
    if events != [] {
      var n := |events| - 1;
      AdmissionsAreRemembered(events[..n], user);
      assert FullOutputs(events)[..n] == FullOutputs(events[..n]);
    }
  }

  // The positions of the times that fall in a closed interval.
  ghost function Within(s: seq<int>, lo: int, hi: int): set<int> {
    set i | 0 <= i < |s| && lo <= s[i] <= hi
  }

  lemma SpacedBoundsCount(s: seq<int>, limit: int, span: int, t: int)
    requires Sorted(s) && Spaced(s, limit, span) && limit > 0
    ensures |Within(s, t - span, t)| <= limit
  {
    var inside := Within(s, t - span, t);
    if inside != {} {
      var k := FirstAtOrAfter(s, t - span);
      assert k + limit < |s| ==> s[k + limit] - s[k] > span;
      forall i | i in inside
        ensures k <= i < k + limit
      {
      }
      RangeSize(inside, k, k + limit);
    }
  }

  lemma {:induction false} FirstAtOrAfter(s: seq<int>, lo: int) returns (k: nat)
    requires Sorted(s) && exists i :: 0 <= i < |s| && s[i] >= lo
    ensures k < |s| && s[k] >= lo && forall i :: 0 <= i < k ==> s[i] < lo
  {
    k := 0;
    while s[k] < lo
      invariant k < |s| && forall i :: 0 <= i < k ==> s[i] < lo
      decreases |s| - k
    {
      k := k + 1;
    }
  }

  // Window safety: over every run with fixed positive limits, sweeps anywhere, no closed
  // interval of 60 s holds more admissions of a user than the minute limit, and none of
  // 86400 s more than the day limit.
  lemma SlidingWindowsAreSafe(events: seq<Event>, user: User, limits: Limits, t: int)
    requires Monotone(events) && FixedLimits(events, user, limits)
    ensures limits.requestsPerMinute > 0 ==>
              |Within(AdmissionTimes(events, PrunedOutputs(events), user), t - MINUTE, t)| <= limits.requestsPerMinute
    ensures limits.requestsPerDay > 0 ==>
              |Within(AdmissionTimes(events, PrunedOutputs(events), user), t - DAY, t)| <= limits.requestsPerDay
  {
    PrunedRefinesFull(events);
    AdmissionsAreRemembered(events, user);
    var s := HistoryAfter(events, user).admissions;
    RunsAreWellSpaced(events, user, limits, if events == [] then 0 else events[|events|-1].now);
    if limits.requestsPerMinute > 0 { SpacedBoundsCount(s, limits.requestsPerMinute, MINUTE, t); }
    if limits.requestsPerDay > 0 { SpacedBoundsCount(s, limits.requestsPerDay, DAY, t); }
  }

  lemma SpacedAt(s: seq<int>, limit: int, span: int, k: nat)
    requires Spaced(s, limit, span) && limit > 0
    ensures k + limit < |s| ==> s[k + limit] - s[k] > span
  {
  }

  // When a spaced list is full, its oldest live entry alone decides until when it stays full.
  lemma FullUntilOldestLeaves(s: seq<int>, limit: int, span: int, now: int, t: int)
    requires Sorted(s) && Spaced(s, limit, span) && (forall i :: 0 <= i < |s| ==> s[i] <= now)
    requires 0 < limit <= |Since(s, now - span)| && t >= now && span >= 0
    ensures now - span <= Since(s, now - span)[0] <= now
    ensures |Since(s, t - span)| >= limit <==> t <= Since(s, now - span)[0] + span
  {
    var k := SinceIsSuffix(s, now - span);
    SpacedAt(s, limit, span, k);
    assert k + limit == |s|;
    var j := SinceIsSuffix(s, t - span);
    assert |Since(s, t - span)| == |s| - j;
    assert s[k] == Since(s, now - span)[0];
    assert j <= k <==> s[k] >= t - span;
  }

  // A per-minute denial tells the caller to wait one second less than it has to, except when
  // the oldest entry is just about to leave; with no admission meanwhile the test keeps
  // denying through the oldest live entry + 60 and passes from then on. minute is the pruned
  // list the code indexes at 0.
  lemma MinuteRetryIsExact(events: seq<Event>, user: User, limits: Limits, now: int, t: int)
    requires Monotone(events) && FixedLimits(events, user, limits)
    requires forall i :: 0 <= i < |events| ==> events[i].now <= now
    requires Decide(HistoryAfter(events, user), limits, now).limitType == "requests_per_minute"
    requires t >= now
    ensures var s := HistoryAfter(events, user).admissions;
            var minute := CheckWindow(WindowOf(WindowsAfter(events), user), limits, now).0.minute;
            var retry := Decide(HistoryAfter(events, user), limits, now).retryAfter;
            && minute == Since(s, now - MINUTE) && minute != []
            && 1 <= retry <= 60
            && (!MinuteTest(Since(s, t - MINUTE), limits, t).allowed <==> t <= minute[0] + MINUTE)
            && minute[0] + MINUTE + 1 - now == (if minute[0] == now - MINUTE then retry else retry + 1)
  {
    var h, w := HistoryAfter(events, user), WindowOf(WindowsAfter(events), user);
    RunsAreWellSpaced(events, user, limits, now);
    WindowsAgree(events, user, now);
    PrunedMinute(w, h, limits, now);
    FullUntilOldestLeaves(h.admissions, limits.requestsPerMinute, MINUTE, now, t);
  }

  lemma PrunedMinute(w: Window, h: History, limits: Limits, now: int)
    requires Agrees(w, h, now)
    requires Decide(h, limits, now).limitType == "requests_per_minute"
    ensures 0 < limits.requestsPerMinute <= |Since(h.admissions, now - MINUTE)|
    ensures CheckWindow(w, limits, now).0.minute == Since(h.admissions, now - MINUTE)
    ensures Decide(h, limits, now) == MinuteTest(Since(h.admissions, now - MINUTE), limits, now)
  {
    DecidedBy(h, limits, now);
    SinceTwice(w.minute, now - MINUTE, now - MINUTE);
  }

  lemma DecidedBy(h: History, limits: Limits, now: int)
    ensures Decide(h, limits, now).limitType == "requests_per_minute"
            ==> 0 < limits.requestsPerMinute <= |Since(h.admissions, now - MINUTE)|
    ensures Decide(h, limits, now).limitType == "requests_per_day"
            ==> 0 < limits.requestsPerDay <= |Since(h.admissions, now - DAY)|
    ensures Decide(h, limits, now).limitType == "tokens_per_minute"
            ==> TokensSince(h.tokens, now - MINUTE) != []
                && 0 < limits.tokensPerMinute <= TokenSum(TokensSince(h.tokens, now - MINUTE))
  {
    assert |"requests_per_minute"| == 19 && |"requests_per_day"| == 16 && |"tokens_per_minute"| == 17;
    assert |ADMIT.limitType| == 0;
  }

  // The same for a per-day denial, whose clamp asks for 60 s where 1 s would do.
  lemma DayRetryIsExact(events: seq<Event>, user: User, limits: Limits, now: int, t: int)
    requires Monotone(events) && FixedLimits(events, user, limits)
    requires forall i :: 0 <= i < |events| ==> events[i].now <= now
    requires Decide(HistoryAfter(events, user), limits, now).limitType == "requests_per_day"
    requires t >= now
    ensures var s := HistoryAfter(events, user).admissions;
            var live := Since(s, now - DAY);
            var retry := Decide(HistoryAfter(events, user), limits, now).retryAfter;
            && live != [] && 1 <= retry <= DAY
            && (!DayTest(Since(s, t - DAY), limits, t).allowed <==> t <= live[0] + DAY)
            && live[0] + DAY + 1 - now == (if live[0] == now - DAY then retry - 59 else retry + 1)
  {
    var h := HistoryAfter(events, user);
    RunsAreWellSpaced(events, user, limits, now);
    DecidedBy(h, limits, now);
    FullUntilOldestLeaves(h.admissions, limits.requestsPerDay, DAY, now, t);
  }

  ghost predicate TokensSorted(s: seq<TokenEntry>, now: int) {
    && (forall i, j :: 0 <= i < j < |s| ==> s[i].timestamp <= s[j].timestamp)
    && (forall i :: 0 <= i < |s| ==> s[i].timestamp <= now)
  }

  lemma {:induction false} RunsSortTokens(events: seq<Event>, user: User, now: int)
    requires Monotone(events) && forall i :: 0 <= i < |events| ==> events[i].now <= now
    ensures TokensSorted(HistoryAfter(events, user).tokens, now)
  {
    if events != [] {
      RunsSortTokens(events[..|events|-1], user, events[|events|-1].now);
    }
  }

  lemma {:induction false} TokensSinceOldest(s: seq<TokenEntry>, c: int, d: int)
    requires forall i, j :: 0 <= i < j < |s| ==> s[i].timestamp <= s[j].timestamp
    requires c <= d && (TokensSince(s, c) != [] ==> d <= TokensSince(s, c)[0].timestamp)
    ensures TokensSince(s, d) == TokensSince(s, c)
  {
    if s != [] {
      var front := s[..|s|-1];
      TokensSinceOldest(front, c, d);
      if TokensSince(front, c) != [] && s[|s|-1].timestamp >= c {
        TokensSinceFirst(front, c);
      }
    }
  }

  lemma {:induction false} TokensSinceFirst(s: seq<TokenEntry>, c: int)
    requires TokensSince(s, c) != []
    ensures exists i :: 0 <= i < |s| && s[i] == TokensSince(s, c)[0]
    ensures TokensSince(s, c)[0].timestamp >= c
  {
    if TokensSince(s[..|s|-1], c) != [] {
      TokensSinceFirst(s[..|s|-1], c);
    }
  }

  // A token denial tells the caller when the oldest entry leaves, one second short unless clamped.
  // The answer is right about how long the test surely denies, but the test passes once the
  // oldest entry has left only if the newer entries sum below the limit.
  lemma TokenRetryIsExactWhen(events: seq<Event>, user: User, limits: Limits, now: int, t: int)
    requires Monotone(events) && forall i :: 0 <= i < |events| ==> events[i].now <= now
    requires Decide(HistoryAfter(events, user), limits, now).limitType == "tokens_per_minute"
    ensures var tokens := HistoryAfter(events, user).tokens;
            var live := TokensSince(tokens, now - MINUTE);
            var retry := Decide(HistoryAfter(events, user), limits, now).retryAfter;
            && live != [] && 1 <= retry <= 60
            && live[0].timestamp + MINUTE + 1 - now == (if live[0].timestamp == now - MINUTE then retry else retry + 1)
            && (now <= t <= live[0].timestamp + MINUTE ==>
                  !TokenTest(TokensSince(tokens, t - MINUTE), limits, t).allowed)
            && (t == live[0].timestamp + MINUTE + 1 ==>
                  (TokenTest(TokensSince(tokens, t - MINUTE), limits, t).allowed
                   <==> TokenSum(TokensSince(tokens, live[0].timestamp + 1)) < limits.tokensPerMinute))
  {
    var tokens := HistoryAfter(events, user).tokens;
    RunsSortTokens(events, user, now);
    DecidedBy(HistoryAfter(events, user), limits, now);
    var live := TokensSince(tokens, now - MINUTE);
    TokenRetry(HistoryAfter(events, user), limits, now);
    if now <= t <= live[0].timestamp + MINUTE {
      TokensSinceOldest(tokens, now - MINUTE, t - MINUTE);
    }
  }

  lemma TokenRetry(h: History, limits: Limits, now: int)
    requires TokensSorted(h.tokens, now) && Decide(h, limits, now).limitType == "tokens_per_minute"
    ensures var live := TokensSince(h.tokens, now - MINUTE);
            var retry := Decide(h, limits, now).retryAfter;
            && live != [] && 1 <= retry <= 60
            && live[0].timestamp + MINUTE + 1 - now == (if live[0].timestamp == now - MINUTE then retry else retry + 1)
  {
    DecidedBy(h, limits, now);
    DecidedByTokens(h, limits, now);
    TokensSinceFirst(h.tokens, now - MINUTE);
  }

  lemma DecidedByTokens(h: History, limits: Limits, now: int)
    requires Decide(h, limits, now).limitType == "tokens_per_minute"
    ensures Decide(h, limits, now) == TokenTest(TokensSince(h.tokens, now - MINUTE), limits, now)
  {
    assert |"requests_per_minute"| == 19 && |"requests_per_day"| == 16 && |"tokens_per_minute"| == 17;
  }

  // It need not: after two records, of 5 tokens and 50 seconds later of 10, a call at 60 is told
  // to wait for one second, and every call is denied through 110.
  lemma TokenRetryMayBeEarly(user: User)
    ensures var events := [Record(user, 5, 0), Record(user, 10, 50)];
            var h, limits := HistoryAfter(events, user), Limits(0, 0, 10);
            && Monotone(events)
            && Decide(h, limits, 60) == Decision(false, 1, "tokens_per_minute")
            && forall t :: 60 <= t <= 110 ==> !Decide(h, limits, t).allowed
  {
    var events := [Record(user, 5, 0), Record(user, 10, 50)];
    assert events[..1] == [events[0]] && [events[0]][..0] == [];
    assert HistoryAfter([events[0]], user) == History([], [TokenEntry(0, 5)]);
    var h := History([], [TokenEntry(0, 5), TokenEntry(50, 10)]);
    assert HistoryAfter(events, user) == h;
    forall t | 60 <= t <= 110
      ensures !Decide(h, Limits(0, 0, 10), t).allowed
      ensures t == 60 ==> Decide(h, Limits(0, 0, 10), t) == Decision(false, 1, "tokens_per_minute")
    {
      TwoEntries(TokenEntry(0, 5), TokenEntry(50, 10), t - MINUTE);
    }
  }

  lemma TwoEntries(a: TokenEntry, b: TokenEntry, c: int)
    requires a.timestamp < b.timestamp && c <= b.timestamp
    ensures TokensSince([a, b], c) == if a.timestamp >= c then [a, b] else [b]
    ensures TokenSum([a, b]) == a.count + b.count && TokenSum([b]) == b.count
  {
    assert [a, b][..1] == [a] && [a][..0] == [] && [b][..0] == [];
    assert TokensSince([a], c) == if a.timestamp >= c then [a] else [];
    assert TokenSum([a]) == a.count;
  }

  // ---- The decision, spelled out ----

  ghost predicate TokenCuts(s: seq<TokenEntry>, cutoff: int, k: nat) {
    && k <= |s|
    && (forall i :: 0 <= i < k ==> s[i].timestamp < cutoff)
    && (forall i :: k <= i < |s| ==> s[i].timestamp >= cutoff)
  }

  lemma {:induction false} TokensSinceOfCut(s: seq<TokenEntry>, cutoff: int, k: nat)
    requires TokenCuts(s, cutoff, k)
    ensures TokensSince(s, cutoff) == s[k..]
  {
    if s != [] {
      var n := |s| - 1;
      if k == |s| {
        TokensSinceOfCut(s[..n], cutoff, n);
      } else {
        TokensSinceOfCut(s[..n], cutoff, k);
        SuffixSnoc(s, k);
      }
    }
  }

  // The sum is that of the counts, however the list is cut.
  lemma {:induction false} TokenSumAdds(s: seq<TokenEntry>, t: seq<TokenEntry>)
    ensures TokenSum(s + t) == TokenSum(s) + TokenSum(t)
    ensures |s| == 1 ==> TokenSum(s) == s[0].count
  {
    if t == [] {
      assert s + t == s;
    } else {
      TokenSumAdds(s, t[..|t|-1]);
      assert (s + t)[..|s + t| - 1] == s + t[..|t|-1];
    }
    assert |s| == 1 ==> s[..0] == [];
  }

  // What a call with sorted lists of earlier admissions and recorded tokens is answered: m, d and t
  // are where the last minute and the last day begin in them.
  lemma DecisionMeans(h: History, limits: Limits, now: int, m: nat, d: nat, t: nat)
    requires Cuts(h.admissions, now - 60, m) && Cuts(h.admissions, now - 86400, d) && TokenCuts(h.tokens, now - 60, t)
    ensures Decide(h, limits, now) ==
              if limits.requestsPerMinute > 0 && |h.admissions| - m >= limits.requestsPerMinute then
                var wait := 60 - (now - h.admissions[m]);
                Decision(false, if wait < 1 then 1 else wait, "requests_per_minute")
              else if limits.requestsPerDay > 0 && |h.admissions| - d >= limits.requestsPerDay then
                var wait := 86400 - (now - h.admissions[d]);
                Decision(false, if wait < 1 then 60 else wait, "requests_per_day")
              else if t < |h.tokens| && limits.tokensPerMinute > 0
                      && TokenSum(h.tokens[t..]) >= limits.tokensPerMinute then
                var wait := 60 - (now - h.tokens[t].timestamp);
                Decision(false, if wait < 1 then 1 else wait, "tokens_per_minute")
              else Decision(true, 0, "")
  {
    SinceOfCut(h.admissions, now - MINUTE, m);
    SinceOfCut(h.admissions, now - DAY, d);
    TokensSinceOfCut(h.tokens, now - MINUTE, t);
  }

  // The times of the calls of a user that were let through, by position in the run.
  ghost predicate RemembersCalls(events: seq<Event>, user: User, admissions: seq<int>, calls: seq<nat>) {
    && |calls| == |admissions|
    && (forall k :: 0 <= k < |calls| ==> LetThrough(events, user, calls[k]) && admissions[k] == events[calls[k]].now)
    && (forall i, k :: 0 <= i < k < |calls| ==> calls[i] < calls[k])
    && (forall n :: LetThrough(events, user, n) ==> n in calls)
  }

  // The tokens recorded for a user, by position in the run.
  ghost predicate RemembersRecords(events: seq<Event>, user: User, tokens: seq<TokenEntry>, records: seq<nat>) {
    && |records| == |tokens|
    && (forall k :: 0 <= k < |records| ==>
          Records(events, user, records[k])
          && tokens[k] == TokenEntry(events[records[k]].now, events[records[k]].count))
    && (forall i, k :: 0 <= i < k < |records| ==> records[i] < records[k])
    && (forall n :: Records(events, user, n) ==> n in records)
  }

  predicate Records(events: seq<Event>, user: User, n: nat) {
    n < |events| && events[n].Record? && events[n].user == user
  }

  ghost predicate LetThrough(events: seq<Event>, user: User, n: nat) {
    n < |events| && events[n].Check? && events[n].user == user
    && FullOutputs(events)[n].Answer? && FullOutputs(events)[n].decision.allowed
  }

  // Each answer of a run is the decision on what has been remembered before it.
  lemma {:induction false} OutputAt(events: seq<Event>, n: nat)
    requires n < |events|
    ensures FullOutputs(events)[n] == if events[n].Check?
              then Answer(Decide(HistoryAfter(events[..n], events[n].user), events[n].limits, events[n].now))
              else Silent
  {
    var last := |events| - 1;
    if n < last {
      OutputAt(events[..last], n);
      assert events[..last][..n] == events[..n];
    }
  }

  // What is remembered of a user are the calls let through and the tokens recorded, in order.
  lemma {:induction false} HistoryMeans(events: seq<Event>, user: User) returns (calls: seq<nat>, records: seq<nat>)
    ensures RemembersCalls(events, user, HistoryAfter(events, user).admissions, calls)
    ensures RemembersRecords(events, user, HistoryAfter(events, user).tokens, records)
  {
    calls, records := [], [];
    if events != [] {
      var front, e := events[..|events|-1], events[|events|-1];
      calls, records := HistoryMeans(front, user);
      assert events == front + [e];
      calls := RememberCall(front, e, user, HistoryAfter(front, user).admissions, calls);
      records := RememberRecord(front, e, user, HistoryAfter(front, user).tokens, records);
    }
  }

  lemma RememberCall(front: seq<Event>, e: Event, user: User, admissions: seq<int>, calls0: seq<nat>)
    returns (calls: seq<nat>)
    requires RemembersCalls(front, user, admissions, calls0)
    ensures RemembersCalls(front + [e], user,
                           admissions + if LetThrough(front + [e], user, |front|) then [e.now] else [], calls)
  {
    var events, n := front + [e], |front|;
    forall k
      ensures LetThrough(events, user, k) <==> LetThrough(front, user, k) || (k == n && LetThrough(events, user, n))
    {
      OutputsSnoc(front, e);
    }
    calls := calls0 + if LetThrough(events, user, n) then [n] else [];
  }

  lemma OutputsSnoc(front: seq<Event>, e: Event)
    ensures FullOutputs(front + [e]) == FullOutputs(front) + [FullOutput(front, e)]
  {
    assert (front + [e])[..|front|] == front;
  }

  lemma RememberRecord(front: seq<Event>, e: Event, user: User, tokens: seq<TokenEntry>, records0: seq<nat>)
    returns (records: seq<nat>)
    requires RemembersRecords(front, user, tokens, records0)
    ensures RemembersRecords(front + [e], user,
                             tokens + if e.Record? && e.user == user then [TokenEntry(e.now, e.count)] else [], records)
  {
    var events, n := front + [e], |front|;
    forall k
      ensures Records(events, user, k) <==> Records(front, user, k) || (k == n && e.Record? && e.user == user)
    {
    }
    records := records0 + if e.Record? && e.user == user then [n] else [];
  }
}
