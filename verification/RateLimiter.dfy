/** The limiter as the server runs it: windows updated in place behind a map of users. Each
    method is proved to take the step that RateLimitSpec describes on the abstract windows. */
module RateLimiter {
  import opened RateLimitSpec

  method CountInWindow(timestamps: seq<int>, now: int, windowSec: int) returns (count: nat)
    ensures count == |Since(timestamps, now - windowSec)|
  {
    var cutoff := now - windowSec;
    count := 0;
    for i := 0 to |timestamps|
      invariant count == |Since(timestamps[..i], cutoff)|
    {
      assert timestamps[..i+1][..i] == timestamps[..i];
      if timestamps[i] >= cutoff { count := count + 1; }
    }
    assert timestamps[..|timestamps|] == timestamps;
  }

  method FilterTimestamps(timestamps: seq<int>, cutoff: int) returns (result: seq<int>)
    ensures result == Since(timestamps, cutoff)
  {
    result := [];
    for i := 0 to |timestamps|
      invariant result == Since(timestamps[..i], cutoff)
    {
      assert timestamps[..i+1][..i] == timestamps[..i];
      if timestamps[i] >= cutoff { result := result + [timestamps[i]]; }
    }
    assert timestamps[..|timestamps|] == timestamps;
  }

  lemma SumSnoc(s: seq<TokenEntry>, e: TokenEntry)
    ensures TokenSum(s + [e]) == TokenSum(s) + e.count && s + [] == s
  {
    assert (s + [e])[..|s|] == s;
  }

  class SlidingWindow {
    var minute: seq<int>
    var daily: seq<int>
    var tokens: seq<TokenEntry>

    ghost const owner: User

    constructor (ghost owner: User)
      ensures Contents() == EMPTY_WINDOW && this.owner == owner
    {
      this.owner := owner;
      minute, daily, tokens := [], [], [];
    }

    function Contents(): Window
      reads this
    {
      Window(minute, daily, tokens)
    }

    method CleanMinute(now: int)
      modifies this
      ensures Contents() == old(Contents()).(minute := Since(old(minute), now - MINUTE))
    {
      minute := FilterTimestamps(minute, now - 60);
    }

    method CleanDaily(now: int)
      modifies this
      ensures Contents() == old(Contents()).(daily := Since(old(daily), now - DAY))
    {
      daily := FilterTimestamps(daily, now - 86400);
    }

    method CleanTokens(now: int)
      modifies this
      ensures Contents() == old(Contents()).(tokens := TokensSince(old(tokens), now - MINUTE))
    {
      var cutoff := now - 60;
      var result := [];
      for i := 0 to |tokens|
        invariant Contents() == old(Contents())
        invariant result == TokensSince(tokens[..i], cutoff)
      {
        assert tokens[..i+1][..i] == tokens[..i];
        if tokens[i].timestamp >= cutoff { result := result + [tokens[i]]; }
      }
      assert tokens[..|tokens|] == tokens;
      tokens := result;
    }

    method SumTokens(now: int, windowSec: int) returns (total: int)
      ensures total == TokenSum(TokensSince(tokens, now - windowSec))
    {
      var cutoff := now - windowSec;
      total := 0;
      for i := 0 to |tokens|
        invariant total == TokenSum(TokensSince(tokens[..i], cutoff))
      {
        assert tokens[..i+1][..i] == tokens[..i];
        SumSnoc(TokensSince(tokens[..i], cutoff), tokens[i]);
        if tokens[i].timestamp >= cutoff { total := total + tokens[i].count; }
      }
      assert tokens[..|tokens|] == tokens;
    }

    method Record(count: int, now: int)
      modifies this
      ensures Contents() == RecordWindow(old(Contents()), count, now)
    {
      CleanTokens(now);
      tokens := tokens + [TokenEntry(now, count)];
    }

    method Sweep(now: int)
      modifies this
      ensures Contents() == SweepWindow(old(Contents()), now)
    {
      var cutoff := now - 86400;
      minute := FilterTimestamps(minute, cutoff);
      daily := FilterTimestamps(daily, cutoff);
      CleanTokens(now);
    }

    // The three tests of checkLimits, in the order they run.
    method MinuteDenies(limits: Limits, now: int) returns (denied: bool, retry: int)
      modifies this
      ensures Contents() == MinuteStep(old(Contents()), limits, now).0
      ensures MinuteStep(old(Contents()), limits, now).1
              == if denied then Decision(false, retry, "requests_per_minute") else ADMIT
    {
      denied, retry := false, 0;
      if limits.requestsPerMinute > 0 {
        SinceTwice(minute, now - MINUTE, now - MINUTE);
        CleanMinute(now);
        var minuteCount := CountInWindow(minute, now, 60);
        if minuteCount >= limits.requestsPerMinute {
          denied, retry := true, 60 - (now - minute[0]);
          if retry < 1 { retry := 1; }
        }
      }
    }

    method DayDenies(limits: Limits, now: int) returns (denied: bool, retry: int)
      modifies this
      ensures Contents() == DayStep(old(Contents()), limits, now).0
      ensures DayStep(old(Contents()), limits, now).1
              == if denied then Decision(false, retry, "requests_per_day") else ADMIT
    {
      denied, retry := false, 0;
      if limits.requestsPerDay > 0 {
        SinceTwice(daily, now - DAY, now - DAY);
        CleanDaily(now);
        var dayCount := CountInWindow(daily, now, 86400);
        if dayCount >= limits.requestsPerDay {
          denied, retry := true, 86400 - (now - daily[0]);
          if retry < 1 { retry := 60; }
        }
      }
    }

    method TokensDeny(limits: Limits, now: int) returns (denied: bool, retry: int)
      modifies this
      ensures Contents() == TokenStep(old(Contents()), limits, now).0
      ensures TokenStep(old(Contents()), limits, now).1
              == if denied then Decision(false, retry, "tokens_per_minute") else ADMIT
    {
      denied, retry := false, 0;
      if limits.tokensPerMinute > 0 {
        TokensSinceTwice(tokens, now - MINUTE, now - MINUTE);
        CleanTokens(now);
        var tokenCount := SumTokens(now, 60);
        if tokenCount >= limits.tokensPerMinute {
          denied, retry := true, 60 - (now - tokens[0].timestamp);
          if retry < 1 { retry := 1; }
        }
      }
    }

    // The rate-limit part of checkLimits, under the window's lock.
    method Check(limits: Limits, now: int) returns (allowed: bool, retryAfter: int, limitType: string)
      modifies this
      ensures Contents() == CheckWindow(old(Contents()), limits, now).0
      ensures Decision(allowed, retryAfter, limitType) == CheckWindow(old(Contents()), limits, now).1
    {
      var denied, retry := MinuteDenies(limits, now);
      if denied { return false, retry, "requests_per_minute"; }
      denied, retry := DayDenies(limits, now);
      if denied { return false, retry, "requests_per_day"; }
      denied, retry := TokensDeny(limits, now);
      if denied { return false, retry, "tokens_per_minute"; }
      minute := minute + [now];
      daily := daily + [now];
      return true, 0, "";
    }
  }

  class RateLimiter {
    var window: map<User, SlidingWindow>
    // The contents of all windows, as RateLimitSpec sees them.
    ghost var state: Windows
    ghost var Repr: set<SlidingWindow>

    // Every user has a window of its own.
    ghost predicate Valid()
      reads this, Repr
    {
      && window.Keys == state.Keys
      && (forall u | u in window :: window[u] in Repr && window[u].owner == u && window[u].Contents() == state[u])
    }

    constructor ()
      ensures Valid() && state == map[] && Repr == {}
    {
      window := map[];
      Repr := {};
      state := map[];
    }

    // A new user gets an empty window; no existing window changes.
    method GetWindow(userID: User) returns (w: SlidingWindow)
      requires Valid()
      modifies this
      ensures Valid() && window == old(window)[userID := w]
      ensures state == old(state)[userID := WindowOf(old(state), userID)]
      ensures w in Repr && fresh(Repr - old(Repr))
    {
      if userID in window {
        w := window[userID];
        assert window == window[userID := w];
        assert state == state[userID := WindowOf(state, userID)];
      } else {
        w := new SlidingWindow(userID);
        window := window[userID := w];
        Repr := Repr + {w};
        state := state[userID := EMPTY_WINDOW];
      }
    }

    // Every window but that of userID is as state says.
    ghost predicate ValidBut(userID: User)
      reads this, Repr
    {
      && window.Keys == state.Keys
      && (forall u | u in window :: window[u] in Repr && window[u].owner == u)
      && (forall u | u in window && u != userID :: window[u].Contents() == state[u])
    }

    ghost method Commit(userID: User, v: Window)
      requires ValidBut(userID) && userID in window && window[userID].Contents() == v
      modifies this`state
      ensures Valid() && state == old(state)[userID := v]
    {
      state := state[userID := v];
    }

    // The part of checkLimits that holds the window's lock.
    method CheckLocked(userID: User, limits: Limits, now: int)
      returns (allowed: bool, retryAfter: int, limitType: string)
      requires Valid() && userID in window
      modifies this`state, window[userID]
      ensures Valid()
      ensures state == old(state)[userID := CheckWindow(old(state)[userID], limits, now).0]
      ensures Decision(allowed, retryAfter, limitType) == CheckWindow(old(state)[userID], limits, now).1
    {
      allowed, retryAfter, limitType := window[userID].Check(limits, now);
      Commit(userID, window[userID].Contents());
    }

    method CheckLimits(userID: User, limits: Limits, now: int)
      returns (allowed: bool, retryAfter: int, limitType: string)
      requires Valid()
      modifies this, Repr
      ensures Valid() && fresh(Repr - old(Repr))
      ensures state == old(state)[userID := CheckWindow(WindowOf(old(state), userID), limits, now).0]
      ensures Decision(allowed, retryAfter, limitType) == CheckWindow(WindowOf(old(state), userID), limits, now).1
    {
      var w := GetWindow(userID);
      ghost var before := state;
      allowed, retryAfter, limitType := CheckLocked(userID, limits, now);
      SetTwice(old(state), userID, before[userID], state[userID]);
    }

    method RecordLocked(userID: User, count: int, now: int)
      requires Valid() && userID in window
      modifies this`state, window[userID]
      ensures Valid()
      ensures state == old(state)[userID := RecordWindow(old(state)[userID], count, now)]
    {
      window[userID].Record(count, now);
      Commit(userID, window[userID].Contents());
    }

    method RecordTokenUsage(userID: User, count: int, now: int)
      requires Valid()
      modifies this, Repr
      ensures Valid() && fresh(Repr - old(Repr))
      ensures state == old(state)[userID := RecordWindow(WindowOf(old(state), userID), count, now)]
    {
      var w := GetWindow(userID);
      ghost var before := state;
      RecordLocked(userID, count, now);
      SetTwice(old(state), userID, before[userID], state[userID]);
    }

    static lemma SetTwice(ws: Windows, userID: User, v: Window, v': Window)
      ensures ws[userID := v][userID := v'] == ws[userID := v']
    {
    }

    // One tick of cleanupLoop; the map is walked in an arbitrary order.
    method Cleanup(now: int)
      requires Valid()
      modifies this, Repr
      ensures Valid() && Repr == old(Repr)
      ensures state == Sweep(old(state), now)
    {
      ghost var start := state;
      var users := window.Keys;
      while users != {}
        invariant Valid() && Repr == old(Repr)
        invariant Swept(start, state, users, now)
        decreases users
      {
        var userID :| userID in users;
        ghost var before := state;
        SweptOne(start, state, users, now, userID);
        users := users - {userID};
        SweepUser(userID, now);
      }
    }

    method SweepLocked(userID: User, now: int)
      requires Valid() && userID in window
      modifies this`state, window[userID]
      ensures Valid() && state == old(state)[userID := SweepWindow(old(state)[userID], now)]
    {
      window[userID].Sweep(now);
      Commit(userID, window[userID].Contents());
    }

    method SweepUser(userID: User, now: int)
      requires Valid() && userID in window
      modifies this, Repr
      ensures Valid() && Repr == old(Repr)
      ensures state == AfterSweep(old(state), userID, now)
    {
      var w := window[userID];
      SweepLocked(userID, now);
      if w.minute == [] && w.daily == [] && w.tokens == [] {
        window := window - {userID};
        state := state - {userID};
      }
    }
  }

  ghost function AfterSweep(state: Windows, userID: User, now: int): Windows
    requires userID in state
  {
    var v := SweepWindow(state[userID], now);
    if v.IsEmpty() then state[userID := v] - {userID} else state[userID := v]
  }

  lemma SweptOne(start: Windows, state: Windows, users: set<User>, now: int, userID: User)
    requires userID in users && Swept(start, state, users, now)
    ensures Swept(start, AfterSweep(state, userID, now), users - {userID}, now)
  {
  }

  // The entries of users are still to be swept; the others have been.
  ghost predicate Swept(start: Windows, state: Windows, users: set<User>, now: int) {
    && users <= state.Keys
    && (forall u :: u in state ==>
          u in start && state[u] == if u in users then start[u] else SweepWindow(start[u], now))
    && (forall u :: u in start && u !in users ==> (u in state <==> !SweepWindow(start[u], now).IsEmpty()))
  }

  // A whole run against a fresh limiter answers as a limiter that forgets nothing.
  method Serve(events: seq<Event>) returns (outputs: seq<Output>)
    requires Monotone(events)
    ensures outputs == FullOutputs(events)
  {
    var limiter := new RateLimiter();
    outputs := [];
    for n := 0 to |events|
      invariant limiter.Valid() && fresh(limiter) && fresh(limiter.Repr)
      invariant limiter.state == WindowsAfter(events[..n]) && outputs == PrunedOutputs(events[..n])
    {
      assert events[..n+1][..n] == events[..n];
      match events[n] {
        case Check(user, limits, now) =>
          var allowed, retryAfter, limitType := limiter.CheckLimits(user, limits, now);
          outputs := outputs + [Answer(Decision(allowed, retryAfter, limitType))];
        case Record(user, count, now) =>
          limiter.RecordTokenUsage(user, count, now);
          outputs := outputs + [Silent];
        case Cleanup(now) =>
          limiter.Cleanup(now);
          outputs := outputs + [Silent];
      }
    }
    assert events[..|events|] == events;
    PrunedRefinesFull(events);
  }
}
