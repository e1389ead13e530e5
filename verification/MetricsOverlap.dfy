/**
 The cache statistics when calls overlap. Counters are atomic, the strategy counters and the windows
 are behind a lock, and a call is a sequence of atomic operations with one critical section at its
 end: any number of calls make their steps in any order.
 */
module MetricsOverlap {
  import opened CacheMetrics

  /** Where a call stands. `strategy` and `latency` are its arguments. */
  datatype Call =
    | HitBegun(strategy: string, latency: int)
    | HitCounted(strategy: string, latency: int)
    | HitTimed(strategy: string, latency: int)   // about to take the lock
    | MissBegun(latency: int)
    | MissCounted(latency: int)
    | MissTimed(latency: int)
    | Resetting(at: nat)                         // `at` counters stored, of five
    | Loading(at: nat, seen: Metrics)            // `at` counters loaded, of five
    | Reported(mixed: Metrics, stats: Stats)
    | Done

  datatype State = State(m: Metrics, calls: seq<Call>)

  datatype Action =
    | Begin(call: Call)
    | Move(i: nat, now: int)  // call i makes its next step; `now` is read under the lock
    | CountSet
    | CountEviction

  const COUNTERS := 5

  predicate Enabled(s: State, a: Action) {
    match a
    case Begin(call) => call.HitBegun? || call.MissBegun? || call == Resetting(0) || (call.Loading? && call.at == 0)
    case Move(i, _) => i < |s.calls| && !s.calls[i].Reported? && !s.calls[i].Done?
    case _ => true
  }

  // ---- the critical sections and the atomic operations ----

  function LockedHit(m: Metrics, strategy: string, now: int): Metrics {
    m.(exactHits := m.exactHits + Counts(strategy, EXACT), semanticHits := m.semanticHits + Counts(strategy, SEMANTIC),
       recentHits := Record(m.recentHits, now))
  }

  function LockedMiss(m: Metrics, now: int): Metrics {
    m.(recentMisses := Record(m.recentMisses, now))
  }

  function LockedReset(m: Metrics, now: int): Metrics {
    m.(exactHits := 0, semanticHits := 0, recentHits := [], recentMisses := [], startTime := now)
  }

  /** Reset stores counter k. */
  function Zeroed(m: Metrics, k: nat): Metrics {
    if k == 0 then m.(hits := 0)
    else if k == 1 then m.(misses := 0)
    else if k == 2 then m.(sets := 0)
    else if k == 3 then m.(evictions := 0)
    else m.(totalLatency := 0)
  }

  /** GetStats loads counter k. */
  function Loaded(seen: Metrics, m: Metrics, k: nat): Metrics {
    if k == 0 then seen.(hits := m.hits)
    else if k == 1 then seen.(misses := m.misses)
    else if k == 2 then seen.(sets := m.sets)
    else if k == 3 then seen.(evictions := m.evictions)
    else seen.(totalLatency := m.totalLatency)
  }

  /** What GetStats computes with: counters loaded before the lock, the rest read under it. */
  function Mixed(seen: Metrics, m: Metrics): Metrics {
    m.(hits := seen.hits, misses := seen.misses, sets := seen.sets, evictions := seen.evictions, totalLatency := seen.totalLatency)
  }

  function Advance(m: Metrics, c: Call, now: int): (Metrics, Call) {
    match c
    case HitBegun(s, l) => (m.(hits := m.hits + 1), HitCounted(s, l))
    case HitCounted(s, l) => (m.(totalLatency := m.totalLatency + l), HitTimed(s, l))
    case HitTimed(s, _) => (LockedHit(m, s, now), Done)
    case MissBegun(l) => (m.(misses := m.misses + 1), MissCounted(l))
    case MissCounted(l) => (m.(totalLatency := m.totalLatency + l), MissTimed(l))
    case MissTimed(_) => (LockedMiss(m, now), Done)
    case Resetting(at) => if at < COUNTERS then (Zeroed(m, at), Resetting(at + 1)) else (LockedReset(m, now), Done)
    case Loading(at, seen) =>
      if at < COUNTERS then (m, Loading(at + 1, Loaded(seen, m, at)))
      else (m, Reported(Mixed(seen, m), StatsOf(Mixed(seen, m), now)))
    case _ => (m, c)
  }

  function Apply(s: State, a: Action): State
    requires Enabled(s, a)
  {
    match a
    case Begin(call) => s.(calls := s.calls + [call])
    case Move(i, now) =>
      var (m, c) := Advance(s.m, s.calls[i], now);
      State(m, s.calls[i := c])
    case CountSet => s.(m := s.m.(sets := s.m.sets + 1))
    case CountEviction => s.(m := s.m.(evictions := s.m.evictions + 1))
  }

  predicate Runs(s: State, run: seq<Action>)
    decreases |run|, 0
  {
    run == [] || (Runs(s, run[..|run| - 1]) && Enabled(Final(s, run[..|run| - 1]), run[|run| - 1]))
  }

  function Final(s: State, run: seq<Action>): State
    requires Runs(s, run)
    decreases |run|, 1
  {
    if run == [] then s else Apply(Final(s, run[..|run| - 1]), run[|run| - 1])
  }

  // ---- calls under way ----

  function Sum(calls: seq<Call>, weight: Call -> int): int {
    if calls == [] then 0 else Sum(calls[..|calls| - 1], weight) + weight(calls[|calls| - 1])
  }

  lemma {:induction false} SumUpdate(calls: seq<Call>, i: nat, c: Call, weight: Call -> int)
    requires i < |calls|
    ensures Sum(calls[i := c], weight) == Sum(calls, weight) - weight(calls[i]) + weight(c)
  {
    var init := calls[..|calls| - 1];
    if i == |calls| - 1 {
      assert calls[i := c][..|calls| - 1] == init;
    } else {
      SumUpdate(init, i, c, weight);
      assert calls[i := c][..|calls| - 1] == init[i := c];
    }
  }

  lemma SumAppend(calls: seq<Call>, c: Call, weight: Call -> int)
    ensures Sum(calls + [c], weight) == Sum(calls, weight) + weight(c)
  {
    assert (calls + [c])[..|calls|] == calls;
  }

  /** A hit that is in `hits` and not behind the lock yet. */
  function PendingHit(c: Call): int {
    if c.HitCounted? || c.HitTimed? then 1 else 0
  }

  function PendingMiss(c: Call): int {
    if c.MissCounted? || c.MissTimed? then 1 else 0
  }

  function PendingLatency(c: Call): int {
    if c.HitTimed? || c.MissTimed? then c.latency else 0
  }

  lemma {:induction false} SumIsNonNegative(calls: seq<Call>)
    ensures Sum(calls, PendingHit) >= 0
  {
    if calls != [] { SumIsNonNegative(calls[..|calls| - 1]); }
  }

  /** No call is between its first step and its last. */
  ghost predicate Quiet(calls: seq<Call>) {
    forall i :: 0 <= i < |calls| ==> PendingHit(calls[i]) == 0 && PendingMiss(calls[i]) == 0 && !calls[i].Resetting?
  }

  lemma {:induction false} QuietSums(calls: seq<Call>)
    requires Quiet(calls)
    ensures Sum(calls, PendingHit) == 0 && Sum(calls, PendingMiss) == 0 && Sum(calls, PendingLatency) == 0
  {
    if calls != [] { QuietSums(calls[..|calls| - 1]); }
  }

  // ---- overlapping calls leave what calls one after the other would ----

  /** What one step adds to the sequence of calls in the order of their critical sections. */
  function EventOf(s: State, a: Action): seq<Event>
    requires Enabled(s, a)
  {
    match a
    case Begin(_) => []
    case Move(i, now) => CallEvent(s.calls[i], now)
    case CountSet => [Stored]
    case CountEviction => [Evicted]
  }

  function CallEvent(c: Call, now: int): seq<Event> {
    match c
    case HitTimed(strategy, latency) => [Hit(strategy, latency, now)]
    case MissTimed(latency) => [Miss(latency, now)]
    case Resetting(at) => if at < COUNTERS then [] else [Reset(now)]
    case _ => []
  }

  function Events(s: State, run: seq<Action>): seq<Event>
    requires Runs(s, run)
  {
    if run == [] then []
    else Events(s, run[..|run| - 1]) + EventOf(Final(s, run[..|run| - 1]), run[|run| - 1])
  }

  function Created(now: int): State {
    State(Fresh(now), [])
  }

  /** What is behind the lock is the same in both. */
  predicate SameLocked(m: Metrics, q: Metrics) {
    && m.exactHits == q.exactHits && m.semanticHits == q.semanticHits
    && m.recentHits == q.recentHits && m.recentMisses == q.recentMisses && m.startTime == q.startTime
  }

  lemma AfterAppend(start: int, events: seq<Event>, more: seq<Event>)
    requires |more| <= 1
    ensures After(start, events + more) == if more == [] then After(start, events) else Step(After(start, events), more[0])
  {
    if more == [] {
      assert events + more == events;
    } else {
      assert (events + more)[..|events|] == events;
    }
  }

  lemma LockedStep(s: State, a: Action, q: Metrics)
    requires Enabled(s, a) && SameLocked(s.m, q)
    ensures var e := EventOf(s, a); |e| <= 1 && SameLocked(Apply(s, a).m, if e == [] then q else Step(q, e[0]))
  {
  }

  /** In every run, resets included, what is behind the lock is what the calls would leave one after
      the other in the order of their critical sections. */
  lemma {:induction false} LockedPartIsSequential(start: int, run: seq<Action>)
    requires Runs(Created(start), run)
    ensures SameLocked(Final(Created(start), run).m, After(start, Events(Created(start), run)))
  {
    if run != [] {
      var init, s0 := run[..|run| - 1], Created(start);
      LockedPartIsSequential(start, init);
      LockedStep(Final(s0, init), run[|run| - 1], After(start, Events(s0, init)));
      AfterAppend(start, Events(s0, init), EventOf(Final(s0, init), run[|run| - 1]));
    }
  }

  /** So the windows lose nothing however the calls overlap, the clock being read under the lock. */
  lemma {:induction false} WindowsSurviveOverlap(start: int, run: seq<Action>)
    requires Runs(Created(start), run)
    requires Sorted(HitTimes(Events(Created(start), run))) && Sorted(MissTimes(Events(Created(start), run)))
    ensures var (m, events) := (Final(Created(start), run).m, Events(Created(start), run));
      Exact(m.recentHits, HitTimes(events)) && Exact(m.recentMisses, MissTimes(events))
  {
    LockedPartIsSequential(start, run);
    WindowsMatchHistory(start, Events(Created(start), run));
  }

  predicate NoReset(calls: seq<Call>) {
    forall i :: 0 <= i < |calls| ==> !calls[i].Resetting?
  }

  predicate ResetFree(run: seq<Action>) {
    forall i :: 0 <= i < |run| && run[i].Begin? ==> !run[i].call.Resetting?
  }

  /** The atomic counters run ahead of the sequence by the calls under way. */
  ghost predicate RunsAhead(s: State, q: Metrics) {
    && NoReset(s.calls)
    && s.m.hits == q.hits + Sum(s.calls, PendingHit)
    && s.m.misses == q.misses + Sum(s.calls, PendingMiss)
    && s.m.totalLatency == q.totalLatency + Sum(s.calls, PendingLatency)
    && s.m.sets == q.sets && s.m.evictions == q.evictions
  }

  lemma AheadMove(s: State, i: nat, now: int, q: Metrics)
    requires Enabled(s, Move(i, now)) && RunsAhead(s, q)
    ensures var e := CallEvent(s.calls[i], now); |e| <= 1 && RunsAhead(Apply(s, Move(i, now)), if e == [] then q else Step(q, e[0]))
  {
    var c := Advance(s.m, s.calls[i], now).1;
    SumUpdate(s.calls, i, c, PendingHit);
    SumUpdate(s.calls, i, c, PendingMiss);
    SumUpdate(s.calls, i, c, PendingLatency);
  }

  lemma AheadBegin(s: State, call: Call, q: Metrics)
    requires Enabled(s, Begin(call)) && RunsAhead(s, q) && !call.Resetting?
    ensures RunsAhead(Apply(s, Begin(call)), q)
  {
    SumAppend(s.calls, call, PendingHit);
    SumAppend(s.calls, call, PendingMiss);
    SumAppend(s.calls, call, PendingLatency);
  }

  lemma AheadStep(s: State, a: Action, q: Metrics)
    requires Enabled(s, a) && RunsAhead(s, q) && (a.Begin? ==> !a.call.Resetting?)
    ensures var e := EventOf(s, a); |e| <= 1 && RunsAhead(Apply(s, a), if e == [] then q else Step(q, e[0]))
  {
    match a
    case Begin(call) => AheadBegin(s, call, q);
    case Move(i, now) => AheadMove(s, i, now, q);
    case _ =>
  }

  lemma {:induction false} CountersRunAhead(start: int, run: seq<Action>)
    requires Runs(Created(start), run) && ResetFree(run)
    ensures RunsAhead(Final(Created(start), run), After(start, Events(Created(start), run)))
  {
    if run != [] {
      var init, s0 := run[..|run| - 1], Created(start);
      CountersRunAhead(start, init);
      AheadStep(Final(s0, init), run[|run| - 1], After(start, Events(s0, init)));
      AfterAppend(start, Events(s0, init), EventOf(Final(s0, init), run[|run| - 1]));
    }
  }

  /** Without a Reset, whenever no call is under way the statistics are those of the calls one after
      the other. */
  lemma {:induction false} QuietIsSequential(start: int, run: seq<Action>)
    requires Runs(Created(start), run) && ResetFree(run) && Quiet(Final(Created(start), run).calls)
    ensures Final(Created(start), run).m == After(start, Events(Created(start), run))
  {
    CountersRunAhead(start, run);
    LockedPartIsSequential(start, run);
    QuietSums(Final(Created(start), run).calls);
  }

  // ---- the percentages ----

  /** Whatever GetStats mixed: hit and miss rate are percentages of the loaded counters. */
  lemma HitRateIsInRange(mixed: Metrics, now: int)
    ensures var st := StatsOf(mixed, now); 0.0 <= st.hitRate <= 100.0 && st.hitRate + st.missRate == 100.0
  {
    PercentInRange(mixed.hits, mixed.hits + mixed.misses);
  }

  lemma PercentIff(part: nat, whole: nat)
    requires whole > 0
    ensures Percent(part, whole) <= 100.0 <==> part <= whole
  {
    var share := part as real / whole as real;
    assert share * whole as real == part as real;
    if part <= whole {
      PercentInRange(part, whole);
    } else if share <= 1.0 {
      ShareBelow(share, part as real, whole as real);
    }
  }

  lemma ShareBelow(share: real, part: real, whole: real)
    requires whole > 0.0 && share <= 1.0 && share * whole == part
    ensures part <= whole
  {
    assert (1.0 - share) * whole >= 0.0;
  }

  /** A strategy's rate is at most 100 exactly when its counter, read under the lock, is at most the
      `hits` loaded before. */
  lemma {:induction false} StrategyRateIff(mixed: Metrics, now: int)
    requires mixed.hits > 0
    ensures var rates := StatsOf(mixed, now).strategyHitRate;
      && EXACT in rates && (rates[EXACT] <= 100.0 <==> mixed.exactHits <= mixed.hits)
      && SEMANTIC in rates && (rates[SEMANTIC] <= 100.0 <==> mixed.semanticHits <= mixed.hits)
  {
    DifferentStrategies();
    PercentIff(mixed.exactHits, mixed.hits);
    PercentIff(mixed.semanticHits, mixed.hits);
  }

  /** Every hit behind the lock or on its way there is in `hits`. */
  ghost predicate Balanced(s: State) {
    s.m.exactHits + s.m.semanticHits + Sum(s.calls, PendingHit) <= s.m.hits
  }

  /** Without a Reset every state is balanced. */
  lemma {:induction false} RunIsBalanced(start: int, run: seq<Action>)
    requires Runs(Created(start), run) && ResetFree(run)
    ensures Balanced(Final(Created(start), run)) && NoReset(Final(Created(start), run).calls)
  {
    CountersRunAhead(start, run);
    LockedPartIsSequential(start, run);
    CountersMatchHistory(start, Events(Created(start), run));
  }

  /** The steps of a run by which a hit is counted in `hits`, and those by which it passes the lock. */
  function Counted(s: State, run: seq<Action>): nat
    requires Runs(s, run)
  {
    if run == [] then 0
    else Counted(s, run[..|run| - 1]) + IsStep(Final(s, run[..|run| - 1]), run[|run| - 1], (c: Call) => c.HitBegun?)
  }

  function Passed(s: State, run: seq<Action>): nat
    requires Runs(s, run)
  {
    if run == [] then 0
    else Passed(s, run[..|run| - 1]) + IsStep(Final(s, run[..|run| - 1]), run[|run| - 1], (c: Call) => c.HitTimed?)
  }

  function IsStep(s: State, a: Action, p: Call -> bool): nat {
    if a.Move? && a.i < |s.calls| && p(s.calls[a.i]) then 1 else 0
  }

  lemma {:induction false} BalancedStep(s: State, a: Action)
    requires Enabled(s, a) && Balanced(s) && NoReset(s.calls) && (a.Begin? ==> !a.call.Resetting?)
    ensures Balanced(Apply(s, a)) && NoReset(Apply(s, a).calls)
    ensures Apply(s, a).m.hits == s.m.hits + IsStep(s, a, (c: Call) => c.HitBegun?)
    ensures Apply(s, a).m.exactHits + Apply(s, a).m.semanticHits
         <= s.m.exactHits + s.m.semanticHits + IsStep(s, a, (c: Call) => c.HitTimed?)
  {
    DifferentStrategies();
    match a
    case Begin(call) => SumAppend(s.calls, call, PendingHit);
    case Move(i, now) => SumUpdate(s.calls, i, Advance(s.m, s.calls[i], now).1, PendingHit);
    case _ =>
  }

  /** From a balanced state, without a Reset: the strategy counters exceed the earlier `hits` by no
      more than the hits counted since, and by no more than those that passed the lock since. */
  lemma {:induction false} CountersGrow(s: State, run: seq<Action>)
    requires Balanced(s) && NoReset(s.calls) && Runs(s, run) && ResetFree(run)
    ensures Balanced(Final(s, run)) && NoReset(Final(s, run).calls)
    ensures Final(s, run).m.hits == s.m.hits + Counted(s, run)
    ensures Final(s, run).m.exactHits + Final(s, run).m.semanticHits <= s.m.exactHits + s.m.semanticHits + Passed(s, run)
  {
    if run != [] {
      CountersGrow(s, run[..|run| - 1]);
      BalancedStep(Final(s, run[..|run| - 1]), run[|run| - 1]);
    }
  }

  /** A call of GetStats keeps the `hits` it has loaded. */
  lemma {:induction false} SeenIsKept(s: State, run: seq<Action>, i: nat)
    requires Runs(s, run) && i < |s.calls| && s.calls[i].Loading? && s.calls[i].at > 0
    ensures i < |Final(s, run).calls|
    ensures var c := Final(s, run).calls[i];
      (c.Loading? && c.at > 0 && c.seen.hits == s.calls[i].seen.hits) || (c.Reported? && c.mixed.hits == s.calls[i].seen.hits)
  {
    if run != [] {
      SeenIsKept(s, run[..|run| - 1], i);
    }
  }

  /** GetStats has just loaded `hits`. */
  predicate JustLoaded(s: State, i: nat) {
    i < |s.calls| && s.calls[i].Loading? && s.calls[i].at == 1 && s.calls[i].seen.hits == s.m.hits
  }

  /** When no Reset is under way and, from the load of `hits` to the read under the lock, no hit is
      counted or none passes the lock, the strategy rates are percentages. */
  lemma {:induction false} RatesWithoutOverlap(s: State, run: seq<Action>, i: nat, now: int)
    requires Balanced(s) && NoReset(s.calls) && JustLoaded(s, i) && Runs(s, run) && ResetFree(run)
    requires i < |Final(s, run).calls| && Final(s, run).calls[i].Loading? && Final(s, run).calls[i].at == COUNTERS
    requires Counted(s, run) == 0 || Passed(s, run) == 0
    ensures var c := Apply(Final(s, run), Move(i, now)).calls[i];
      && c.Reported? && c.stats == StatsOf(c.mixed, now)
      && forall k :: k in c.stats.strategyHitRate ==> c.stats.strategyHitRate[k] <= 100.0
  {
    CountersGrow(s, run);
    SeenIsKept(s, run, i);
    SumIsNonNegative(s.calls);
    SumIsNonNegative(Final(s, run).calls);
    var mixed := Mixed(Final(s, run).calls[i].seen, Final(s, run).m);
    assert mixed.exactHits <= mixed.hits && mixed.semanticHits <= mixed.hits;
    if mixed.hits > 0 { StrategyRateIff(mixed, now); }
  }

  // ---- the runs that break them ----

  lemma Extend(start: int, run: seq<Action>, a: Action) returns (longer: seq<Action>)
    requires Runs(Created(start), run) && Enabled(Final(Created(start), run), a)
    ensures longer == run + [a] && Runs(Created(start), longer) && Final(Created(start), longer) == Apply(Final(Created(start), run), a)
    ensures ResetFree(run) && (a.Begin? ==> !a.call.Resetting?) ==> ResetFree(longer)
  {
    longer := run + [a];
    assert longer[..|run|] == run;
  }

  /** One exact hit from its first step to its last. */
  lemma WholeHit(start: int, run: seq<Action>, now: int) returns (longer: seq<Action>)
    requires Runs(Created(start), run)
    ensures Runs(Created(start), longer) && (ResetFree(run) ==> ResetFree(longer))
    ensures var (s, t) := (Final(Created(start), run), Final(Created(start), longer));
      && t.calls == s.calls + [Done] && t.m.hits == s.m.hits + 1 && t.m.exactHits == s.m.exactHits + 1
  {
    DifferentStrategies();
    var n := |Final(Created(start), run).calls|;
    longer := Extend(start, run, Begin(HitBegun(EXACT, 0)));
    longer := Extend(start, longer, Move(n, now));
    longer := Extend(start, longer, Move(n, now));
    longer := Extend(start, longer, Move(n, now));
  }

  /** The remaining steps of a GetStats that has loaded `hits`. */
  lemma RestOfStats(start: int, run: seq<Action>, i: nat, now: int) returns (longer: seq<Action>)
    requires Runs(Created(start), run)
    requires var s := Final(Created(start), run); i < |s.calls| && s.calls[i].Loading? && s.calls[i].at == 1
    ensures Runs(Created(start), longer) && (ResetFree(run) ==> ResetFree(longer))
    ensures var (s, t) := (Final(Created(start), run), Final(Created(start), longer));
      && |t.calls| == |s.calls| && t.calls[i].Reported? && t.calls[i].stats == StatsOf(t.calls[i].mixed, now)
      && t.m == s.m && t.calls[i].mixed == s.m.(hits := s.calls[i].seen.hits)
  {
    longer := Extend(start, run, Move(i, now));
    longer := Extend(start, longer, Move(i, now));
    longer := Extend(start, longer, Move(i, now));
    longer := Extend(start, longer, Move(i, now));
    longer := Extend(start, longer, Move(i, now));
  }

  lemma TwoOfOne(mixed: Metrics, now: int)
    requires mixed.hits == 1 && mixed.exactHits == 2
    ensures EXACT in StatsOf(mixed, now).strategyHitRate && StatsOf(mixed, now).strategyHitRate[EXACT] == 200.0
  {
    DifferentStrategies();
    assert 2 as real / 1 as real * 100.0 == 200.0;
  }

  /** A finished GetStats that reports 200 percent for the exact strategy. */
  predicate Shows200(c: Call) {
    c.Reported? && EXACT in c.stats.strategyHitRate && c.stats.strategyHitRate[EXACT] == 200.0
  }

  /** A hit between the load and the read: 200 percent. */
  lemma OverlappingHitShows200(now: int) returns (run: seq<Action>)
    ensures Runs(Created(now), run) && ResetFree(run)
    ensures |Final(Created(now), run).calls| > 1 && Shows200(Final(Created(now), run).calls[1])
  {
    assert Runs(Created(now), []);
    run := WholeHit(now, [], now);
    run := Extend(now, run, Begin(Loading(0, Fresh(now))));
    run := Extend(now, run, Move(1, now));
    run := WholeHit(now, run, now);
    run := RestOfStats(now, run, 1, now);
    TwoOfOne(Final(Created(now), run).calls[1].mixed, now);
  }

  /** A whole GetStats with no step of another call in between reports the statistics as they are. */
  lemma WholeStats(start: int, run: seq<Action>, now: int) returns (longer: seq<Action>)
    requires Runs(Created(start), run)
    ensures Runs(Created(start), longer)
    ensures var (s, t) := (Final(Created(start), run), Final(Created(start), longer));
      && |t.calls| == |s.calls| + 1 && t.calls[|s.calls|].Reported?
      && t.m == s.m && t.calls[|s.calls|].mixed == s.m && t.calls[|s.calls|].stats == StatsOf(s.m, now)
  {
    var n := |Final(Created(start), run).calls|;
    longer := Extend(start, run, Begin(Loading(0, Fresh(start))));
    longer := Extend(start, longer, Move(n, now));
    longer := RestOfStats(start, longer, n, now);
  }

  lemma ResetMove(start: int, run: seq<Action>, calls: seq<Call>, at: nat, now: int) returns (longer: seq<Action>)
    requires Runs(Created(start), run) && Final(Created(start), run).calls == calls + [Resetting(at)] && at < COUNTERS
    ensures Runs(Created(start), longer)
    ensures Final(Created(start), longer) == State(Zeroed(Final(Created(start), run).m, at), calls + [Resetting(at + 1)])
  {
    longer := Extend(start, run, Move(|calls|, now));
    assert (calls + [Resetting(at)])[|calls| := Resetting(at + 1)] == calls + [Resetting(at + 1)];
  }

  lemma AllZeroed(m: Metrics, now: int)
    ensures LockedReset(Zeroed(Zeroed(Zeroed(Zeroed(Zeroed(m, 0), 1), 2), 3), 4), now) == Fresh(now)
  {
  }

  /** A whole Reset: fresh statistics, and the other calls where they were. */
  lemma WholeReset(start: int, run: seq<Action>, now: int) returns (longer: seq<Action>)
    requires Runs(Created(start), run)
    ensures Runs(Created(start), longer)
    ensures Final(Created(start), longer) == State(Fresh(now), Final(Created(start), run).calls + [Done])
  {
    var s := Final(Created(start), run);
    longer := Extend(start, run, Begin(Resetting(0)));
    longer := ResetMove(start, longer, s.calls, 0, now);
    longer := ResetMove(start, longer, s.calls, 1, now);
    longer := ResetMove(start, longer, s.calls, 2, now);
    longer := ResetMove(start, longer, s.calls, 3, now);
    longer := ResetMove(start, longer, s.calls, 4, now);
    AllZeroed(s.m, now);
    longer := Extend(start, longer, Move(|s.calls|, now));
    assert (s.calls + [Resetting(5)])[|s.calls| := Done] == s.calls + [Done];
  }

  /** A whole Reset leaves a balanced state exactly when no hit is on its way to the lock. */
  lemma ResetBalancesIff(s: State, now: int)
    ensures Balanced(State(Fresh(now), s.calls + [Done])) <==> Sum(s.calls, PendingHit) == 0
  {
    SumAppend(s.calls, Done, PendingHit);
    SumIsNonNegative(s.calls);
  }

  /** A Reset between the two halves of a hit, and a hit after that: nothing is under way any more, and
      the strategy counter exceeds the hits. */
  lemma OverlappingResetSpoils(now: int) returns (run: seq<Action>)
    ensures Runs(Created(now), run) && Quiet(Final(Created(now), run).calls)
    ensures Final(Created(now), run).m.hits == 1 && Final(Created(now), run).m.exactHits == 2
  {
    run := HalfHitAndReset(now);
    run := WholeHit(now, run, now);
  }

  /** From then on a GetStats all alone reports 200 percent. */
  lemma SpoiledStatsShow200(start: int, run: seq<Action>, now: int) returns (longer: seq<Action>)
    requires Runs(Created(start), run)
    requires Final(Created(start), run).m.hits == 1 && Final(Created(start), run).m.exactHits == 2
    ensures Runs(Created(start), longer)
    ensures var (s, t) := (Final(Created(start), run), Final(Created(start), longer));
      |t.calls| == |s.calls| + 1 && t.m == s.m && Shows200(t.calls[|s.calls|])
  {
    longer := WholeStats(start, run, now);
    TwoOfOne(Final(Created(start), run).m, now);
  }

  lemma HalfHitAndReset(now: int) returns (run: seq<Action>)
    ensures Runs(Created(now), run)
    ensures var s := Final(Created(now), run); s.calls == [Done, Done] && s.m.hits == 0 && s.m.exactHits == 1 && s.m.semanticHits == 0
  {
    DifferentStrategies();
    assert Runs(Created(now), []);
    run := Extend(now, [], Begin(HitBegun(EXACT, 0)));
    run := Extend(now, run, Move(0, now));
    assert Final(Created(now), run).calls == [HitCounted(EXACT, 0)];
    run := WholeReset(now, run, now);
    run := Extend(now, run, Move(0, now));
    run := Extend(now, run, Move(0, now));
  }

  // ---- the code ----

  /** The statistics with the calls in progress. */
  class OverlappingMetrics {
    var hits: nat
    var misses: nat
    var sets: nat
    var evictions: nat
    var totalLatency: int
    var exactHits: nat
    var semanticHits: nat
    var recentHits: seq<int>
    var recentMisses: seq<int>
    var startTime: int
    var calls: seq<Call>

    function View(): State
      reads this
    {
      State(Metrics(hits, misses, sets, evictions, totalLatency, exactHits, semanticHits, recentHits, recentMisses, startTime), calls)
    }

    constructor (now: int)
      ensures View() == Created(now)
    {
      hits, misses, sets, evictions, totalLatency := 0, 0, 0, 0, 0;
      exactHits, semanticHits, recentHits, recentMisses, startTime, calls := 0, 0, [], [], now, [];
    }

    /** The next atomic operation or critical section of a RecordHit in progress. */
    method MoveHit(i: nat, now: int)
      requires i < |calls| && (calls[i].HitBegun? || calls[i].HitCounted? || calls[i].HitTimed?)
      modifies this
      ensures View() == Apply(old(View()), Move(i, now))
    {
      match calls[i]
      case HitBegun(strategy, latency) =>
        hits := hits + 1;
        calls := calls[i := HitCounted(strategy, latency)];
      case HitCounted(strategy, latency) =>
        totalLatency := totalLatency + latency;
        calls := calls[i := HitTimed(strategy, latency)];
      case HitTimed(strategy, _) =>
        DifferentStrategies();
        if strategy == EXACT {
          exactHits := exactHits + 1;
        } else if strategy == SEMANTIC {
          semanticHits := semanticHits + 1;
        }
        recentHits := Record(recentHits, now);
        calls := calls[i := Done];
    }

    method MoveMiss(i: nat, now: int)
      requires i < |calls| && (calls[i].MissBegun? || calls[i].MissCounted? || calls[i].MissTimed?)
      modifies this
      ensures View() == Apply(old(View()), Move(i, now))
    {
      match calls[i]
      case MissBegun(latency) =>
        misses := misses + 1;
        calls := calls[i := MissCounted(latency)];
      case MissCounted(latency) =>
        totalLatency := totalLatency + latency;
        calls := calls[i := MissTimed(latency)];
      case MissTimed(_) =>
        recentMisses := Record(recentMisses, now);
        calls := calls[i := Done];
    }

    method MoveReset(i: nat, now: int)
      requires i < |calls| && calls[i].Resetting?
      modifies this
      ensures View() == Apply(old(View()), Move(i, now))
    {
      var at := calls[i].at;
      if at < COUNTERS {
        if at == 0 {
          hits := 0;
        } else if at == 1 {
          misses := 0;
        } else if at == 2 {
          sets := 0;
        } else if at == 3 {
          evictions := 0;
        } else {
          totalLatency := 0;
        }
        calls := calls[i := Resetting(at + 1)];
      } else {
        exactHits, semanticHits, recentHits, recentMisses, startTime := 0, 0, [], [], now;
        calls := calls[i := Done];
      }
    }

    method MoveStats(i: nat, now: int)
      requires i < |calls| && calls[i].Loading?
      modifies this`calls
      ensures View() == Apply(old(View()), Move(i, now))
    {
      var at, seen := calls[i].at, calls[i].seen;
      if at < COUNTERS {
        if at == 0 {
          seen := seen.(hits := hits);
        } else if at == 1 {
          seen := seen.(misses := misses);
        } else if at == 2 {
          seen := seen.(sets := sets);
        } else if at == 3 {
          seen := seen.(evictions := evictions);
        } else {
          seen := seen.(totalLatency := totalLatency);
        }
        calls := calls[i := Loading(at + 1, seen)];
      } else {
        var mixed := Metrics(seen.hits, seen.misses, seen.sets, seen.evictions, seen.totalLatency,
                             exactHits, semanticHits, recentHits, recentMisses, startTime);
        calls := calls[i := Reported(mixed, StatsOf(mixed, now))];
      }
    }
  }
}
