/** The per-user limiter as functions: the pruned windows the server keeps, beside a limiter
    that remembers every admission, and the runs of both. Times are whole seconds. */
module RateLimitSpec {

  datatype TokenEntry = TokenEntry(timestamp: int, count: int)

  datatype Limits = Limits(requestsPerMinute: int, requestsPerDay: int, tokensPerMinute: int)

  datatype Window = Window(minute: seq<int>, daily: seq<int>, tokens: seq<TokenEntry>) {
    predicate IsEmpty() { minute == [] && daily == [] && tokens == [] }
  }

  const EMPTY_WINDOW := Window([], [], [])

  datatype Decision = Decision(allowed: bool, retryAfter: int, limitType: string)

  const ADMIT := Decision(true, 0, "")

  const MINUTE := 60
  const DAY := 86400

  // The timestamps at or after cutoff, in order.
  function Since(s: seq<int>, cutoff: int): (r: seq<int>)
    ensures |r| <= |s|
  {
    if s == [] then []
    else Since(s[..|s|-1], cutoff) + if s[|s|-1] >= cutoff then [s[|s|-1]] else []
  }

  function TokensSince(s: seq<TokenEntry>, cutoff: int): (r: seq<TokenEntry>)
    ensures |r| <= |s|
  {
    if s == [] then []
    else TokensSince(s[..|s|-1], cutoff) + if s[|s|-1].timestamp >= cutoff then [s[|s|-1]] else []
  }

  function TokenSum(s: seq<TokenEntry>): int {
    if s == [] then 0 else TokenSum(s[..|s|-1]) + s[|s|-1].count
  }

  // Seconds until an entry at oldest leaves the window, or floor when that is under a second.
  function Retry(span: int, now: int, oldest: int, floor: int): int {
    var retry := span - (now - oldest);
    if retry < 1 then floor else retry
  }

  // The three tests, each on the entries inside its window.
  function MinuteTest(live: seq<int>, limits: Limits, now: int): Decision {
    if 0 < limits.requestsPerMinute <= |live|
    then Decision(false, Retry(MINUTE, now, live[0], 1), "requests_per_minute")
    else ADMIT
  }

  function DayTest(live: seq<int>, limits: Limits, now: int): Decision {
    if 0 < limits.requestsPerDay <= |live|
    then Decision(false, Retry(DAY, now, live[0], 60), "requests_per_day")
    else ADMIT
  }

  function TokenTest(live: seq<TokenEntry>, limits: Limits, now: int): Decision {
    if live != [] && 0 < limits.tokensPerMinute <= TokenSum(live)
    then Decision(false, Retry(MINUTE, now, live[0].timestamp, 1), "tokens_per_minute")
    else ADMIT
  }

  // ---- The limiter that forgets nothing ----

  datatype History = History(admissions: seq<int>, tokens: seq<TokenEntry>)

  const NO_HISTORY := History([], [])

  function Decide(h: History, limits: Limits, now: int): Decision {
    var minute := MinuteTest(Since(h.admissions, now - MINUTE), limits, now);
    if !minute.allowed then minute else
    var day := DayTest(Since(h.admissions, now - DAY), limits, now);
    if !day.allowed then day else
    TokenTest(TokensSince(h.tokens, now - MINUTE), limits, now)
  }

  function Remember(h: History, limits: Limits, now: int): History {
    if Decide(h, limits, now).allowed then h.(admissions := h.admissions + [now]) else h
  }

  // ---- The pruned window, branch for branch ----

  // A list is pruned only when its test is enabled and reached.
  function MinuteStep(w: Window, limits: Limits, now: int): (Window, Decision) {
    var w' := if limits.requestsPerMinute > 0 then w.(minute := Since(w.minute, now - MINUTE)) else w;
    (w', MinuteTest(Since(w'.minute, now - MINUTE), limits, now))
  }

  function DayStep(w: Window, limits: Limits, now: int): (Window, Decision) {
    var w' := if limits.requestsPerDay > 0 then w.(daily := Since(w.daily, now - DAY)) else w;
    (w', DayTest(Since(w'.daily, now - DAY), limits, now))
  }

  function TokenStep(w: Window, limits: Limits, now: int): (Window, Decision) {
    var w' := if limits.tokensPerMinute > 0 then w.(tokens := TokensSince(w.tokens, now - MINUTE)) else w;
    (w', TokenTest(TokensSince(w'.tokens, now - MINUTE), limits, now))
  }

  function CheckWindow(w: Window, limits: Limits, now: int): (Window, Decision) {
    var (w1, minute) := MinuteStep(w, limits, now);
    if !minute.allowed then (w1, minute) else
    var (w2, day) := DayStep(w1, limits, now);
    if !day.allowed then (w2, day) else
    var (w3, token) := TokenStep(w2, limits, now);
    if !token.allowed then (w3, token) else
    (w3.(minute := w3.minute + [now], daily := w3.daily + [now]), ADMIT)
  }

  function RecordWindow(w: Window, count: int, now: int): Window {
    w.(tokens := TokensSince(w.tokens, now - MINUTE) + [TokenEntry(now, count)])
  }

  // The eager sweep prunes both request lists to a day and the tokens to a minute.
  function SweepWindow(w: Window, now: int): Window {
    Window(Since(w.minute, now - DAY), Since(w.daily, now - DAY), TokensSince(w.tokens, now - MINUTE))
  }

  // The entries at or after the cutoff stay, each as often as before, and no other.
  lemma {:induction false} SinceMembers(s: seq<int>, cutoff: int, x: int)
    ensures multiset(Since(s, cutoff))[x] == if x >= cutoff then multiset(s)[x] else 0
  {
    if s != [] {
      SinceMembers(s[..|s|-1], cutoff, x);
      assert s == s[..|s|-1] + [s[|s|-1]];
    }
  }

  lemma {:induction false} TokensSinceMembers(s: seq<TokenEntry>, cutoff: int, x: TokenEntry)
    ensures multiset(TokensSince(s, cutoff))[x] == if x.timestamp >= cutoff then multiset(s)[x] else 0
  {
    if s != [] {
      TokensSinceMembers(s[..|s|-1], cutoff, x);
      assert s == s[..|s|-1] + [s[|s|-1]];
    }
  }

  type User = string
  type Windows = map<User, Window>

  function WindowOf(ws: Windows, user: User): Window {
    if user in ws then ws[user] else EMPTY_WINDOW
  }

  function Sweep(ws: Windows, now: int): Windows {
    map user | user in ws && !SweepWindow(ws[user], now).IsEmpty() :: SweepWindow(ws[user], now)
  }

  // After a sweep no window is empty, a window holds requests of the last day and tokens of the
  // last minute only, and of those it holds all that it held.
  lemma SweepMeans(ws: Windows, now: int, user: User, x: int, e: TokenEntry)
    ensures user in Sweep(ws, now) <==>
              user in ws && (|| (exists t :: t in ws[user].minute && t >= now - 86400)
                             || (exists t :: t in ws[user].daily && t >= now - 86400)
                             || (exists t :: t in ws[user].tokens && t.timestamp >= now - 60))
    ensures user in Sweep(ws, now) ==>
              var w, w' := ws[user], Sweep(ws, now)[user];
              && multiset(w'.minute)[x] == (if x >= now - 86400 then multiset(w.minute)[x] else 0)
              && multiset(w'.daily)[x] == (if x >= now - 86400 then multiset(w.daily)[x] else 0)
              && multiset(w'.tokens)[e] == (if e.timestamp >= now - 60 then multiset(w.tokens)[e] else 0)
  {
    if user in ws {
      var w := ws[user];
      SinceMembers(w.minute, now - DAY, x);
      SinceMembers(w.daily, now - DAY, x);
      TokensSinceMembers(w.tokens, now - MINUTE, e);
      SomeSince(w.minute, now - DAY);
      SomeSince(w.daily, now - DAY);
      SomeTokensSince(w.tokens, now - MINUTE);
    }
  }

  // What a call leaves in a window: a list is pruned to its span when its limit is positive and no
  // earlier test has denied the call, and a call let through adds its time to both request lists.
  lemma CheckPrunes(w: Window, limits: Limits, now: int)
    ensures var (w', d) := CheckWindow(w, limits, now);
            var added := if d.allowed then [now] else [];
            && w'.minute == (if limits.requestsPerMinute > 0 then Since(w.minute, now - 60) else w.minute) + added
            && w'.daily == (if limits.requestsPerDay > 0 && d.limitType != "requests_per_minute"
                            then Since(w.daily, now - 86400) else w.daily) + added
            && w'.tokens == (if limits.tokensPerMinute > 0 && d.limitType in ["", "tokens_per_minute"]
                             then TokensSince(w.tokens, now - 60) else w.tokens)
  {
    assert |"requests_per_minute"| == 19 && |"requests_per_day"| == 16 && |"tokens_per_minute"| == 17 && |""| == 0;
    assert forall s: seq<int> :: s + [] == s;
  }

  // Recording prunes the tokens to a minute and adds one entry at the end.
  lemma RecordPrunes(w: Window, count: int, now: int, e: TokenEntry)
    ensures var w' := RecordWindow(w, count, now);
            && w'.minute == w.minute && w'.daily == w.daily
            && w'.tokens != [] && w'.tokens[|w'.tokens|-1] == TokenEntry(now, count)
            && multiset(w'.tokens[..|w'.tokens|-1])[e] == if e.timestamp >= now - 60 then multiset(w.tokens)[e] else 0
  {
    TokensSinceMembers(w.tokens, now - MINUTE, e);
    var tokens := RecordWindow(w, count, now).tokens;
    assert tokens[..|tokens|-1] == TokensSince(w.tokens, now - MINUTE);
  }

  lemma {:induction false} SomeSince(s: seq<int>, cutoff: int)
    ensures Since(s, cutoff) != [] <==> exists t :: t in s && t >= cutoff
  {
    if s != [] {
      var front, last := s[..|s|-1], s[|s|-1];
      SomeSince(front, cutoff);
      assert last in s && s == front + [last];
      if t :| t in s && t >= cutoff { assert t == last || t in front; }
      if t :| t in front && t >= cutoff { assert t in s; }
    }
  }

  lemma {:induction false} SomeTokensSince(s: seq<TokenEntry>, cutoff: int)
    ensures TokensSince(s, cutoff) != [] <==> exists t :: t in s && t.timestamp >= cutoff
  {
    if s != [] {
      var front, last := s[..|s|-1], s[|s|-1];
      SomeTokensSince(front, cutoff);
      assert last in s && s == front + [last];
      if t :| t in s && t.timestamp >= cutoff { assert t == last || t in front; }
    }
  }

  // ---- Runs ----

  datatype Event =
    | Check(user: User, limits: Limits, now: int)
    | Record(user: User, count: int, now: int)
    | Cleanup(now: int)

  datatype Output = Silent | Answer(decision: Decision)

  function WindowsAfter(events: seq<Event>): Windows {
    if events == [] then map[]
    else
      var ws := WindowsAfter(events[..|events|-1]);
      match events[|events|-1]
      case Check(user, limits, now) => ws[user := CheckWindow(WindowOf(ws, user), limits, now).0]
      case Record(user, count, now) => ws[user := RecordWindow(WindowOf(ws, user), count, now)]
      case Cleanup(now) => Sweep(ws, now)
  }

  function PrunedOutputs(events: seq<Event>): (outs: seq<Output>)
    ensures |outs| == |events|
  {
    if events == [] then []
    else
      var front := events[..|events|-1];
      PrunedOutputs(front) +
      match events[|events|-1]
      case Check(user, limits, now) => [Answer(CheckWindow(WindowOf(WindowsAfter(front), user), limits, now).1)]
      case Record(_, _, _) => [Silent]
      case Cleanup(_) => [Silent]
  }

  function HistoryStep(h: History, e: Event, user: User): History {
    match e
    case Check(u, limits, now) => if u == user then Remember(h, limits, now) else h
    case Record(u, count, now) => if u == user then h.(tokens := h.tokens + [TokenEntry(now, count)]) else h
    case Cleanup(_) => h
  }

  function HistoryAfter(events: seq<Event>, user: User): History {
    if events == [] then NO_HISTORY
    else HistoryStep(HistoryAfter(events[..|events|-1], user), events[|events|-1], user)
  }

  function FullOutputs(events: seq<Event>): (outs: seq<Output>)
    ensures |outs| == |events|
  {
    if events == [] then []
    else FullOutputs(events[..|events|-1]) + [FullOutput(events[..|events|-1], events[|events|-1])]
  }

  function FullOutput(events: seq<Event>, e: Event): Output {
    if e.Check? then Answer(Decide(HistoryAfter(events, e.user), e.limits, e.now)) else Silent
  }

  // The clock never runs backwards.
  ghost predicate Monotone(events: seq<Event>) {
    forall i, j :: 0 <= i < j < |events| ==> events[i].now <= events[j].now
  }

  // ---- Refinement ----

  // Seen through any window that a call at time last or later can open, w and h look the same.
  ghost predicate Agrees(w: Window, h: History, last: int) {
    && (forall c :: c >= last - MINUTE ==> Since(w.minute, c) == Since(h.admissions, c))
    && (forall c :: c >= last - DAY ==> Since(w.daily, c) == Since(h.admissions, c))
    && (forall c :: c >= last - MINUTE ==> TokensSince(w.tokens, c) == TokensSince(h.tokens, c))
  }

  lemma {:induction false} SinceTwice(s: seq<int>, c: int, d: int)
    requires c <= d
    ensures Since(Since(s, c), d) == Since(s, d)
  {
    if s != [] {
      SinceTwice(s[..|s|-1], c, d);
      if s[|s|-1] >= c {
        SinceSnoc(Since(s[..|s|-1], c), s[|s|-1], d);
      } else {
        assert Since(s, c) == Since(s[..|s|-1], c);
      }
    }
  }

  lemma SinceSnoc(s: seq<int>, x: int, c: int)
    ensures Since(s + [x], c) == if x >= c then Since(s, c) + [x] else Since(s, c)
  {
    assert (s + [x])[..|s|] == s;
  }

  lemma {:induction false} TokensSinceTwice(s: seq<TokenEntry>, c: int, d: int)
    requires c <= d
    ensures TokensSince(TokensSince(s, c), d) == TokensSince(s, d)
  {
    if s != [] {
      TokensSinceTwice(s[..|s|-1], c, d);
      if s[|s|-1].timestamp >= c {
        TokensSinceSnoc(TokensSince(s[..|s|-1], c), s[|s|-1], d);
      } else {
        assert TokensSince(s, c) == TokensSince(s[..|s|-1], c);
      }
    }
  }

  lemma TokensSinceSnoc(s: seq<TokenEntry>, x: TokenEntry, c: int)
    ensures TokensSince(s + [x], c) == if x.timestamp >= c then TokensSince(s, c) + [x] else TokensSince(s, c)
  {
    assert (s + [x])[..|s|] == s;
  }

  lemma AgreesLater(w: Window, h: History, last: int, now: int)
    requires Agrees(w, h, last) && last <= now
    ensures Agrees(w, h, now)
  {
  }

  // Pruning a list at or below the cutoff its test uses cannot be seen.
  lemma PruneAgrees(w: Window, h: History, now: int, cm: int, cd: int, ct: int)
    requires Agrees(w, h, now) && cm <= now - MINUTE && cd <= now - DAY && ct <= now - MINUTE
    ensures Agrees(w.(minute := Since(w.minute, cm)), h, now)
    ensures Agrees(w.(daily := Since(w.daily, cd)), h, now)
    ensures Agrees(w.(tokens := TokensSince(w.tokens, ct)), h, now)
  {
    forall c | c >= now - MINUTE
      ensures Since(Since(w.minute, cm), c) == Since(w.minute, c)
      ensures TokensSince(TokensSince(w.tokens, ct), c) == TokensSince(w.tokens, c)
    {
      SinceTwice(w.minute, cm, c);
      TokensSinceTwice(w.tokens, ct, c);
    }
    forall c | c >= now - DAY ensures Since(Since(w.daily, cd), c) == Since(w.daily, c) {
      SinceTwice(w.daily, cd, c);
    }
  }

  lemma AdmitAgrees(w: Window, h: History, now: int)
    requires Agrees(w, h, now)
    ensures Agrees(w.(minute := w.minute + [now], daily := w.daily + [now]),
                   h.(admissions := h.admissions + [now]), now)
  {
    forall c
      ensures Since(w.minute + [now], c) == Since(w.minute, c) + if now >= c then [now] else []
      ensures Since(w.daily + [now], c) == Since(w.daily, c) + if now >= c then [now] else []
      ensures Since(h.admissions + [now], c) == Since(h.admissions, c) + if now >= c then [now] else []
    {
      SinceSnoc(w.minute, now, c);
      SinceSnoc(w.daily, now, c);
      SinceSnoc(h.admissions, now, c);
    }
  }

  // One call answers as the full history would, and the window still agrees afterwards.
  lemma CheckRefines(w: Window, h: History, last: int, limits: Limits, now: int)
    requires Agrees(w, h, last) && last <= now
    ensures CheckWindow(w, limits, now).1 == Decide(h, limits, now)
    ensures Agrees(CheckWindow(w, limits, now).0, Remember(h, limits, now), now)
  {
    AgreesLater(w, h, last, now);
    PruneAgrees(w, h, now, now - MINUTE, now - DAY, now - MINUTE);
    var w1 := if limits.requestsPerMinute > 0 then w.(minute := Since(w.minute, now - MINUTE)) else w;
    PruneAgrees(w1, h, now, now - MINUTE, now - DAY, now - MINUTE);
    var w2 := if limits.requestsPerDay > 0 then w1.(daily := Since(w1.daily, now - DAY)) else w1;
    PruneAgrees(w2, h, now, now - MINUTE, now - DAY, now - MINUTE);
    var w3 := if limits.tokensPerMinute > 0 then w2.(tokens := TokensSince(w2.tokens, now - MINUTE)) else w2;
    AdmitAgrees(w3, h, now);
  }

  lemma RecordRefines(w: Window, h: History, last: int, count: int, now: int)
    requires Agrees(w, h, last) && last <= now
    ensures Agrees(RecordWindow(w, count, now), h.(tokens := h.tokens + [TokenEntry(now, count)]), now)
  {
    var e := TokenEntry(now, count);
    PruneAgrees(w, h, now, now - MINUTE, now - DAY, now - MINUTE);
    var pruned := TokensSince(w.tokens, now - MINUTE);
    forall c | c >= now - MINUTE
      ensures TokensSince(pruned + [e], c) == TokensSince(h.tokens + [e], c)
    {
      TokensSinceSnoc(pruned, e, c);
      TokensSinceSnoc(h.tokens, e, c);
    }
  }

  lemma SweepRefines(w: Window, h: History, last: int, now: int)
    requires Agrees(w, h, last) && last <= now
    ensures Agrees(SweepWindow(w, now), h, now)
  {
    AgreesLater(w, h, last, now);
    PruneAgrees(w, h, now, now - DAY, now - DAY, now - MINUTE);
    var w1 := w.(minute := Since(w.minute, now - DAY));
    PruneAgrees(w1, h, now, now - DAY, now - DAY, now - MINUTE);
    var w2 := w1.(daily := Since(w1.daily, now - DAY));
    PruneAgrees(w2, h, now, now - DAY, now - DAY, now - MINUTE);
  }

  lemma {:induction false} WindowsAgree(events: seq<Event>, user: User, now: int)
    requires Monotone(events) && forall i :: 0 <= i < |events| ==> events[i].now <= now
    ensures Agrees(WindowOf(WindowsAfter(events), user), HistoryAfter(events, user), now)
  {
    if events != [] {
      var front, e := events[..|events|-1], events[|events|-1];
      WindowsAgree(front, user, e.now);
      var w, h := WindowOf(WindowsAfter(front), user), HistoryAfter(front, user);
      match e {
        case Check(u, limits, _) => if u == user { CheckRefines(w, h, e.now, limits, e.now); }
        case Record(u, count, _) => if u == user { RecordRefines(w, h, e.now, count, e.now); }
        case Cleanup(_) => SweepRefines(w, h, e.now, e.now);
      }
      AgreesLater(WindowOf(WindowsAfter(events), user), HistoryAfter(events, user), e.now, now);
    }
  }

  // Over every run, the pruned limiter answers exactly as one that forgets nothing; deleting
  // and re-creating windows cannot be noticed. Limits may differ from call to call.
  lemma {:induction false} PrunedRefinesFull(events: seq<Event>)
    requires Monotone(events)
    ensures PrunedOutputs(events) == FullOutputs(events)
  {
    if events != [] {
      var front, e := events[..|events|-1], events[|events|-1];
      PrunedRefinesFull(front);
      if e.Check? {
        WindowsAgree(front, e.user, e.now);
        CheckRefines(WindowOf(WindowsAfter(front), e.user), HistoryAfter(front, e.user), e.now, e.limits, e.now);
      }
    }
  }

  // A denied call changes no other answer: the run without it gives the same outputs without its own.
  lemma DeniedCallIsInvisible(before: seq<Event>, e: Event, after: seq<Event>)
    requires Monotone(before + [e] + after)
    requires e.Check? && !CheckWindow(WindowOf(WindowsAfter(before), e.user), e.limits, e.now).1.allowed
    ensures PrunedOutputs(before + [e] + after)[..|before|] == PrunedOutputs(before + after)[..|before|]
    ensures PrunedOutputs(before + [e] + after)[|before|+1..] == PrunedOutputs(before + after)[|before|..]
  {
    MonotoneWithout(before, e, after);
    var long := before + [e] + after;
    assert long[|before|] == e && forall i :: 0 <= i < |before| ==> long[i] == before[i];
    WindowsAgree(before, e.user, e.now);
    CheckRefines(WindowOf(WindowsAfter(before), e.user), HistoryAfter(before, e.user), e.now, e.limits, e.now);
    PrunedRefinesFull(before + [e] + after);
    PrunedRefinesFull(before + after);
    DeniedCallFull(before, e, after);
  }

  lemma MonotoneWithout(before: seq<Event>, e: Event, after: seq<Event>)
    requires Monotone(before + [e] + after)
    ensures Monotone(before + after)
  {
    var long, short := before + [e] + after, before + after;
    forall i, j | 0 <= i < j < |short|
      ensures short[i].now <= short[j].now
    {
      assert short[i] == long[if i < |before| then i else i + 1];
      assert short[j] == long[if j < |before| then j else j + 1];
    }
  }

  lemma HistorySnoc(events: seq<Event>, x: Event, user: User)
    ensures HistoryAfter(events + [x], user) == HistoryStep(HistoryAfter(events, user), x, user)
  {
    assert (events + [x])[..|events|] == events;
  }

  lemma FullOutputsSnoc(events: seq<Event>, x: Event)
    ensures FullOutputs(events + [x]) == FullOutputs(events) + [FullOutput(events, x)]
  {
    assert (events + [x])[..|events|] == events;
  }

  lemma {:induction false} DeniedCallKeepsHistory(before: seq<Event>, e: Event, after: seq<Event>, user: User)
    requires e.Check? && !Decide(HistoryAfter(before, e.user), e.limits, e.now).allowed
    ensures HistoryAfter(before + [e] + after, user) == HistoryAfter(before + after, user)
  {
    if after == [] {
      assert before + [e] + after == before + [e] && before + after == before;
      HistorySnoc(before, e, user);
    } else {
      var rest, x := after[..|after|-1], after[|after|-1];
      DeniedCallKeepsHistory(before, e, rest, user);
      Regroup(before, e, rest, x, after);
      HistorySnoc(before + [e] + rest, x, user);
      HistorySnoc(before + rest, x, user);
    }
  }

  lemma Regroup(before: seq<Event>, e: Event, rest: seq<Event>, x: Event, after: seq<Event>)
    requires after == rest + [x]
    ensures before + [e] + after == (before + [e] + rest) + [x]
    ensures before + after == (before + rest) + [x]
  {
  }

  // long is short with one more entry at position n.
  ghost predicate DropsOne(long: seq<Output>, short: seq<Output>, n: nat) {
    |long| == |short| + 1 && n <= |short| && long[..n] == short[..n] && long[n+1..] == short[n..]
  }

  lemma {:induction false} DeniedCallFull(before: seq<Event>, e: Event, after: seq<Event>)
    requires e.Check? && !Decide(HistoryAfter(before, e.user), e.limits, e.now).allowed
    ensures DropsOne(FullOutputs(before + [e] + after), FullOutputs(before + after), |before|)
  {
    if after == [] {
      assert before + [e] + after == before + [e] && before + after == before;
      FullOutputsSnoc(before, e);
      DropLast(FullOutputs(before), FullOutput(before, e));
    } else {
      var rest, x := after[..|after|-1], after[|after|-1];
      DeniedCallFull(before, e, rest);
      Regroup(before, e, rest, x, after);
      FullOutputsSnoc(before + [e] + rest, x);
      FullOutputsSnoc(before + rest, x);
      if x.Check? { DeniedCallKeepsHistory(before, e, rest, x.user); }
      assert FullOutput(before + [e] + rest, x) == FullOutput(before + rest, x);
      DropsOneSnoc(FullOutputs(before + [e] + rest), FullOutputs(before + rest), |before|,
                   FullOutput(before + rest, x));
    }
  }

  lemma DropLast(short: seq<Output>, y: Output)
    ensures DropsOne(short + [y], short, |short|)
  {
  }

  lemma DropsOneSnoc(long: seq<Output>, short: seq<Output>, n: nat, y: Output)
    requires DropsOne(long, short, n)
    ensures DropsOne(long + [y], short + [y], n)
  {
    assert (long + [y])[n+1..] == long[n+1..] + [y];
    assert (short + [y])[n..] == short[n..] + [y];
  }
}
