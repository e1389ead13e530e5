/**
 Cache statistics: counters, and the windows of recent hits and misses that every record
 call filters and truncates in place. Times are in nanoseconds.
 */
module CacheMetrics {
  const WINDOW_NS := 60 * 1_000_000_000
  const WINDOW_LIMIT := 1000

  // ---- one window ----

  /** The elements strictly after `cutoff`, in order. */
  function Newer(ts: seq<int>, cutoff: int): seq<int> {
    if ts == [] then []
    else
      var t := ts[|ts| - 1];
      Newer(ts[..|ts| - 1], cutoff) + (if t > cutoff then [t] else [])
  }

  /** The newest at most `n` elements. */
  function Newest(ts: seq<int>, n: nat): seq<int> {
    if |ts| > n then ts[|ts| - n..] else ts
  }

  /** The filter and the cut: what a history shows at time `now`. */
  function Cut(recent: seq<int>, now: int): seq<int> {
    Newest(Newer(recent, now - WINDOW_NS), WINDOW_LIMIT)
  }

  /** One record call on a window. */
  function Record(recent: seq<int>, now: int): seq<int> {
    Cut(recent + [now], now)
  }

  /** The window after a whole history, trimmed again at every step. */
  function Trimmed(history: seq<int>): seq<int> {
    if history == [] then [] else Record(Trimmed(history[..|history| - 1]), history[|history| - 1])
  }

  predicate Sorted(ts: seq<int>) {
    |ts| <= 1 || (Sorted(ts[..|ts| - 1]) && ts[|ts| - 2] <= ts[|ts| - 1])
  }

  /** How many elements are not after `cutoff`. */
  function Old(ts: seq<int>, cutoff: int): (n: nat)
    ensures n <= |ts|
  {
    if ts == [] then 0 else Old(ts[..|ts| - 1], cutoff) + if ts[|ts| - 1] > cutoff then 0 else 1
  }

  lemma {:induction false} NewerAppends(a: seq<int>, b: seq<int>, cutoff: int)
    ensures Newer(a + b, cutoff) == Newer(a, cutoff) + Newer(b, cutoff)
  {
    if b == [] {
      assert a + b == a;
    } else {
      var init := b[..|b| - 1];
      assert (a + b)[..|a + b| - 1] == a + init;
      NewerAppends(a, init, cutoff);
    }
  }

  lemma {:induction false} AllOld(ts: seq<int>, cutoff: int)
    requires forall i :: 0 <= i < |ts| ==> ts[i] <= cutoff
    ensures Newer(ts, cutoff) == []
  {
    if ts != [] {
      AllOld(ts[..|ts| - 1], cutoff);
    }
  }

  lemma {:induction false} AllNew(ts: seq<int>, cutoff: int)
    requires forall i :: 0 <= i < |ts| ==> ts[i] > cutoff
    ensures Newer(ts, cutoff) == ts
  {
    if ts != [] {
      AllNew(ts[..|ts| - 1], cutoff);
      assert ts == ts[..|ts| - 1] + [ts[|ts| - 1]];
    }
  }

  lemma NewerParts(a: seq<int>, b: seq<int>, cutoff: int)
    requires forall i :: 0 <= i < |a| ==> a[i] <= cutoff
    requires forall i :: 0 <= i < |b| ==> b[i] > cutoff
    ensures Newer(a + b, cutoff) == b
  {
    NewerAppends(a, b, cutoff);
    AllOld(a, cutoff);
    AllNew(b, cutoff);
  }

  /** `n` separates the elements up to `cutoff` from the ones after it. */
  ghost predicate Separates(ts: seq<int>, n: nat, cutoff: int) {
    && n <= |ts|
    && (forall i :: 0 <= i < n ==> ts[i] <= cutoff)
    && (forall i :: n <= i < |ts| ==> ts[i] > cutoff)
  }

  lemma {:induction false} OldSeparates(ts: seq<int>, cutoff: int)
    requires Sorted(ts)
    ensures Separates(ts, Old(ts, cutoff), cutoff)
  {
    if ts != [] {
      var n := |ts| - 1;
      OldSeparates(ts[..n], cutoff);
      if ts[n] <= cutoff && n > 0 {
        assert ts[..n][n - 1] <= cutoff;
      }
    }
  }

  /** In a sorted sequence the newer elements are a suffix, wherever it was cut before. */
  lemma NewerOfSuffix(ts: seq<int>, from: nat, stale: nat, cutoff: int)
    requires Separates(ts, stale, cutoff) && from <= |ts|
    ensures Newer(ts[from..], cutoff) == if from < stale then ts[stale..] else ts[from..]
  {
    if from < stale {
      assert ts[from..] == ts[from..stale] + ts[stale..];
      NewerParts(ts[from..stale], ts[stale..], cutoff);
    } else {
      AllNew(ts[from..], cutoff);
    }
  }

  lemma OldGrows(ts: seq<int>, t: int, early: int, late: int)
    requires early <= late
    ensures Old(ts, early) <= Old(ts + [t], late)
  {
    assert (ts + [t])[..|ts|] == ts;
    OldIsLater(ts, early, late);
  }

  /** Where the window at time `now` begins in a sorted history. */
  function Start(history: seq<int>, now: int): (start: nat)
    ensures start <= |history|
  {
    var stale := Old(history, now - WINDOW_NS);
    if |history| - WINDOW_LIMIT > stale then |history| - WINDOW_LIMIT else stale
  }

  lemma NewestOfSuffix(ts: seq<int>, from: nat, n: nat)
    requires from <= |ts|
    ensures Newest(ts[from..], n) == ts[if |ts| - n > from then |ts| - n else from..]
  {
    if |ts| - from > n {
      assert ts[from..][|ts| - from - n..] == ts[|ts| - n..];
    }
  }

  /** A window that was cut no later than it should be now is brought up to date by one trim. */
  lemma TrimOfSuffix(history: seq<int>, from: nat, now: int)
    requires Sorted(history) && from <= Start(history, now)
    ensures Cut(history[from..], now) == history[Start(history, now)..]
  {
    OldSeparates(history, now - WINDOW_NS);
    var stale := Old(history, now - WINDOW_NS);
    NewerOfSuffix(history, from, stale, now - WINDOW_NS);
    NewestOfSuffix(history, if from < stale then stale else from, WINDOW_LIMIT);
  }

  lemma CutIsSuffix(history: seq<int>, now: int)
    requires Sorted(history)
    ensures Cut(history, now) == history[Start(history, now)..]
  {
    assert history[0..] == history;
    TrimOfSuffix(history, 0, now);
  }

  lemma StartGrows(init: seq<int>, t: int, early: int, late: int)
    requires Sorted(init + [t]) && early <= late
    ensures Start(init, early) <= Start(init + [t], late)
  {
    OldGrows(init, t, early - WINDOW_NS, late - WINDOW_NS);
  }

  /** Filtering and truncating at every record call loses nothing: the window equals what the full
      history shows at the last recorded time. */
  lemma {:induction false} TrimmingLosesNothing(history: seq<int>)
    requires Sorted(history) && history != []
    ensures Trimmed(history) == Cut(history, history[|history| - 1])
  {
    var init, now := history[..|history| - 1], history[|history| - 1];
    var from := if init == [] then 0 else Start(init, init[|init| - 1]);
    assert history == init + [now];
    assert Trimmed(init) == init[from..] by {
      if init != [] {
        TrimmingLosesNothing(init);
        CutIsSuffix(init, init[|init| - 1]);
      }
    }
    if init != [] {
      StartGrows(init, now, init[|init| - 1], now);
    }
    assert Trimmed(init) + [now] == history[from..];
    TrimOfSuffix(history, from, now);
    CutIsSuffix(history, now);
  }

  /** How many events the whole history has in the minute before `now`, never cut. */
  function TrueCount(history: seq<int>, now: int): nat {
    |Newer(history, now - WINDOW_NS)|
  }

  /** Where the window of the last record call begins in a sorted history. */
  function Begin(history: seq<int>): (from: nat)
    ensures from <= |history|
  {
    if history == [] then 0 else Start(history, history[|history| - 1])
  }

  lemma TrimmedBegins(history: seq<int>)
    requires Sorted(history)
    ensures Trimmed(history) == history[Begin(history)..]
  {
    if history != [] {
      TrimmingLosesNothing(history);
      CutIsSuffix(history, history[|history| - 1]);
    }
  }

  /** How many elements the last record call left out although they are inside the minute at `now`. */
  function Hidden(history: seq<int>, now: int): nat {
    |Newer(history[..Begin(history)], now - WINDOW_NS)|
  }

  lemma {:induction false} NewerAndOld(ts: seq<int>, cutoff: int)
    ensures |Newer(ts, cutoff)| + Old(ts, cutoff) == |ts|
  {
    if ts != [] {
      NewerAndOld(ts[..|ts| - 1], cutoff);
    }
  }

  lemma SuffixBalance(ts: seq<int>, from: nat, cutoff: int)
    requires from <= |ts|
    ensures |ts[from..]| + |Newer(ts[..from], cutoff)| == |Newer(ts, cutoff)| + Old(ts[from..], cutoff)
  {
    assert ts == ts[..from] + ts[from..];
    NewerAppends(ts[..from], ts[from..], cutoff);
    NewerAndOld(ts[from..], cutoff);
  }

  /** Read at any time, the window has too many elements by those that have left the minute since,
      and too few by those it hides. */
  lemma WindowBalance(history: seq<int>, now: int)
    requires Sorted(history)
    ensures |Trimmed(history)| + Hidden(history, now) == TrueCount(history, now) + Old(Trimmed(history), now - WINDOW_NS)
  {
    TrimmedBegins(history);
    SuffixBalance(history, Begin(history), now - WINDOW_NS);
  }

  lemma {:induction false} SortedPrefix(ts: seq<int>, n: nat)
    requires Sorted(ts) && n <= |ts|
    ensures Sorted(ts[..n])
  {
    if n < |ts| {
      SortedPrefix(ts[..|ts| - 1], n);
      assert ts[..|ts| - 1][..n] == ts[..n];
    } else {
      assert ts[..n] == ts;
    }
  }

  lemma {:induction false} AnyNewerIff(ts: seq<int>, cutoff: int)
    requires Sorted(ts)
    ensures Newer(ts, cutoff) != [] <==> ts != [] && ts[|ts| - 1] > cutoff
  {
    OldSeparates(ts, cutoff);
    NewerAndOld(ts, cutoff);
  }

  /** The first kept element has left the minute. */
  predicate FirstIsStale(recent: seq<int>, now: int) {
    recent != [] && recent[0] <= now - WINDOW_NS
  }

  /** The newest element that was dropped is still inside the minute. */
  predicate DroppedIsFresh(history: seq<int>, now: int) {
    Begin(history) > 0 && history[Begin(history) - 1] > now - WINDOW_NS
  }

  lemma HiddenIff(history: seq<int>, now: int)
    requires Sorted(history)
    ensures Hidden(history, now) > 0 <==> DroppedIsFresh(history, now)
  {
    SortedPrefix(history, Begin(history));
    AnyNewerIff(history[..Begin(history)], now - WINDOW_NS);
  }

  /** A suffix of a sorted sequence has an old element exactly when its first is old. */
  lemma OldInSuffixIff(ts: seq<int>, from: nat, cutoff: int)
    requires Sorted(ts) && from < |ts|
    ensures Old(ts[from..], cutoff) > 0 <==> ts[from] <= cutoff
  {
    OldSeparates(ts, cutoff);
    NewerOfSuffix(ts, from, Old(ts, cutoff), cutoff);
    NewerAndOld(ts[from..], cutoff);
  }

  lemma StaleIff(history: seq<int>, now: int)
    requires Sorted(history)
    ensures Old(Trimmed(history), now - WINDOW_NS) > 0 <==> FirstIsStale(Trimmed(history), now)
  {
    TrimmedBegins(history);
    if Begin(history) < |history| {
      OldInSuffixIff(history, Begin(history), now - WINDOW_NS);
    }
  }

  /** Read at any time, the window's length is too large exactly when its first element has left the
      minute, and too small exactly when an element that was cut off has not. */
  lemma LaterCountIsTrueIff(history: seq<int>, now: int)
    requires Sorted(history)
    ensures |Trimmed(history)| > TrueCount(history, now) <==> FirstIsStale(Trimmed(history), now)
    ensures |Trimmed(history)| < TrueCount(history, now) <==> DroppedIsFresh(history, now)
    ensures |Trimmed(history)| == TrueCount(history, now)
      <==> !FirstIsStale(Trimmed(history), now) && !DroppedIsFresh(history, now)
  {
    WindowBalance(history, now);
    HiddenIff(history, now);
    StaleIff(history, now);
    if DroppedIsFresh(history, now) && Begin(history) < |history| {
      TrimmedBegins(history);
      SortedPair(history, Begin(history) - 1);
    }
  }

  lemma {:induction false} SortedPair(ts: seq<int>, i: nat)
    requires Sorted(ts) && i + 1 < |ts|
    ensures ts[i] <= ts[i + 1]
  {
    if i + 2 < |ts| {
      SortedPair(ts[..|ts| - 1], i);
    }
  }

  predicate UpTo(history: seq<int>, now: int) {
    history != [] ==> history[|history| - 1] <= now
  }

  /** A window below the cap hides nothing. */
  lemma ShortWindowHidesNothing(history: seq<int>, now: int)
    requires Sorted(history) && UpTo(history, now)
    requires |Trimmed(history)| < WINDOW_LIMIT
    ensures !DroppedIsFresh(history, now)
  {
    TrimmedBegins(history);
    if history != [] {
      OldSeparates(history, history[|history| - 1] - WINDOW_NS);
    }
  }

  /** So it is never too small, and right exactly when its first element, if any, is still inside
      the minute. */
  lemma ShortWindowIsTrueIff(history: seq<int>, now: int)
    requires Sorted(history) && UpTo(history, now)
    requires |Trimmed(history)| < WINDOW_LIMIT
    ensures |Trimmed(history)| >= TrueCount(history, now)
    ensures |Trimmed(history)| == TrueCount(history, now) <==> !FirstIsStale(Trimmed(history), now)
  {
    ShortWindowHidesNothing(history, now);
    LaterCountIsTrueIff(history, now);
  }

  function Repeat(t: int, n: nat): seq<int> {
    if n == 0 then [] else Repeat(t, n - 1) + [t]
  }

  lemma {:induction false} RepeatIs(t: int, n: nat)
    ensures |Repeat(t, n)| == n
    ensures forall i :: 0 <= i < n ==> Repeat(t, n)[i] == t
  {
    if n > 0 { RepeatIs(t, n - 1); }
  }

  lemma {:induction false} RepeatIsSorted(t: int, n: nat)
    ensures Sorted(Repeat(t, n))
  {
    if n > 0 {
      RepeatIsSorted(t, n - 1);
      RepeatIs(t, n - 1);
      RepeatIs(t, n);
      assert Repeat(t, n)[..|Repeat(t, n)| - 1] == Repeat(t, n - 1);
    }
  }

  /** 1001 hits at one instant, read at that instant: the window shows 1000 of them. */
  lemma BusyMinuteIsUnderstated(t: int)
    ensures var history := Repeat(t, WINDOW_LIMIT + 1);
      |Trimmed(history)| == WINDOW_LIMIT && TrueCount(history, t) == WINDOW_LIMIT + 1
  {
    var history := Repeat(t, WINDOW_LIMIT + 1);
    RepeatIs(t, WINDOW_LIMIT + 1);
    RepeatIsSorted(t, WINDOW_LIMIT + 1);
    TrimmingLosesNothing(history);
    AllNew(history, t - WINDOW_NS);
  }

  lemma {:induction false} OldIsLater(ts: seq<int>, early: int, late: int)
    requires early <= late
    ensures Old(ts, early) <= Old(ts, late)
  {
    if ts != [] {
      OldIsLater(ts[..|ts| - 1], early, late);
    }
  }

  // ---- all counters ----

  const EXACT := "exact"
  const SEMANTIC := "semantic"

  lemma DifferentStrategies()
    ensures EXACT != SEMANTIC
  {
    assert |EXACT| != |SEMANTIC|;
  }

  datatype Event =
    | Hit(strategy: string, latency: int, now: int)
    | Miss(latency: int, now: int)
    | Stored
    | Evicted
    | Reset(now: int)

  datatype Metrics = Metrics(
    hits: nat, misses: nat, sets: nat, evictions: nat, totalLatency: int,
    exactHits: nat, semanticHits: nat,
    recentHits: seq<int>, recentMisses: seq<int>, startTime: int)

  function Fresh(now: int): Metrics {
    Metrics(0, 0, 0, 0, 0, 0, 0, [], [], now)
  }

  function Counts(strategy: string, counter: string): nat {
    if strategy == counter then 1 else 0
  }

  function Step(m: Metrics, e: Event): Metrics {
    match e
    case Hit(strategy, latency, now) =>
      m.(hits := m.hits + 1, totalLatency := m.totalLatency + latency,
         exactHits := m.exactHits + (Counts(strategy, EXACT)),
         semanticHits := m.semanticHits + (Counts(strategy, SEMANTIC)),
         recentHits := Record(m.recentHits, now))
    case Miss(latency, now) =>
      m.(misses := m.misses + 1, totalLatency := m.totalLatency + latency, recentMisses := Record(m.recentMisses, now))
    case Stored => m.(sets := m.sets + 1)
    case Evicted => m.(evictions := m.evictions + 1)
    case Reset(now) => Fresh(now)
  }

  function After(start: int, run: seq<Event>): Metrics {
    if run == [] then Fresh(start) else Step(After(start, run[..|run| - 1]), run[|run| - 1])
  }

  /** The times of the hits since the last reset. */
  function HitTimes(run: seq<Event>): seq<int> {
    if run == [] then []
    else
      var ts := HitTimes(run[..|run| - 1]);
      match run[|run| - 1]
      case Hit(_, _, now) => ts + [now]
      case Reset(_) => []
      case _ => ts
  }

  function MissTimes(run: seq<Event>): seq<int> {
    if run == [] then []
    else
      var ts := MissTimes(run[..|run| - 1]);
      match run[|run| - 1]
      case Miss(_, now) => ts + [now]
      case Reset(_) => []
      case _ => ts
  }

  /** Hits of one strategy since the last reset. */
  function HitsOf(run: seq<Event>, strategy: string): nat {
    if run == [] then 0
    else
      var n := HitsOf(run[..|run| - 1], strategy);
      match run[|run| - 1]
      case Hit(s, _, _) => n + (if s == strategy then 1 else 0)
      case Reset(_) => 0
      case _ => n
  }

  function Latency(e: Event): int {
    match e
    case Hit(_, latency, _) => latency
    case Miss(latency, _) => latency
    case _ => 0
  }

  function Total(run: seq<Event>): int {
    if run == [] then 0 else Total(run[..|run| - 1]) + Latency(run[|run| - 1])
  }

  function StoredIn(run: seq<Event>): nat {
    if run == [] then 0 else StoredIn(run[..|run| - 1]) + if run[|run| - 1].Stored? then 1 else 0
  }

  function EvictedIn(run: seq<Event>): nat {
    if run == [] then 0 else EvictedIn(run[..|run| - 1]) + if run[|run| - 1].Evicted? then 1 else 0
  }

  /** The events after the last reset. */
  function SinceReset(run: seq<Event>): seq<Event> {
    if run == [] || run[|run| - 1].Reset? then [] else SinceReset(run[..|run| - 1]) + [run[|run| - 1]]
  }

  lemma OneMoreEvent(m: Metrics, since: seq<Event>, e: Event)
    requires m.sets == StoredIn(since) && m.evictions == EvictedIn(since) && m.totalLatency == Total(since)
    ensures !e.Reset? ==>
      && Step(m, e).sets == StoredIn(since + [e]) && Step(m, e).evictions == EvictedIn(since + [e])
      && Step(m, e).totalLatency == Total(since + [e])
  {
    assert (since + [e])[..|since|] == since;
  }

  /** Sets, evictions and the total latency are those of the events since the last reset. */
  lemma {:induction false} TotalsMatchHistory(start: int, run: seq<Event>)
    ensures After(start, run).sets == StoredIn(SinceReset(run))
    ensures After(start, run).evictions == EvictedIn(SinceReset(run))
    ensures After(start, run).totalLatency == Total(SinceReset(run))
  {
    if run != [] {
      TotalsMatchHistory(start, run[..|run| - 1]);
      OneMoreEvent(After(start, run[..|run| - 1]), SinceReset(run[..|run| - 1]), run[|run| - 1]);
    }
  }

  /** Over every run the counters count the events since the last reset, and the windows are the
      trimmed histories. */
  lemma {:induction false} CountersMatchHistory(start: int, run: seq<Event>)
    ensures var m := After(start, run);
      && m.hits == |HitTimes(run)| && m.misses == |MissTimes(run)|
      && m.recentHits == Trimmed(HitTimes(run)) && m.recentMisses == Trimmed(MissTimes(run))
      && m.exactHits == HitsOf(run, EXACT) && m.semanticHits == HitsOf(run, SEMANTIC)
      && m.exactHits + m.semanticHits <= m.hits
  {
    if run != [] {
      var init := run[..|run| - 1];
      CountersMatchHistory(start, init);
      match run[|run| - 1]
      case Hit(_, _, now) => assert (HitTimes(init) + [now])[..|HitTimes(init)|] == HitTimes(init);
      case Miss(_, now) => assert (MissTimes(init) + [now])[..|MissTimes(init)|] == MissTimes(init);
      case _ =>
    }
  }

  // ---- statistics ----

  const MS := 1_000_000

  /** `strategyHitRate` is empty while there are no hits; `uptime` is in milliseconds. */
  datatype Stats = Stats(
    hits: nat, misses: nat, sets: nat, evictions: nat, totalRequests: nat,
    hitRate: real, missRate: real, avgLatency: int, recentQPS: real,
    strategyHitRate: map<string, real>, exactHits: nat, semanticHits: nat, uptime: int)

  function Percent(part: nat, whole: nat): real {
    if whole > 0 then part as real / whole as real * 100.0 else 0.0
  }

  /** Go's integer division, which truncates. */
  function Quotient(a: int, b: int): int
    requires b > 0
  {
    if a >= 0 then a / b else -(-a / b)
  }

  function Qps(hits: nat, misses: nat): real {
    (hits + misses) as real / 60.0
  }

  function StatsOf(m: Metrics, now: int): Stats {
    var total := m.hits + m.misses;
    var rate := Percent(m.hits, total);
    Stats(m.hits, m.misses, m.sets, m.evictions, total,
          rate, 100.0 - rate, if total > 0 then Quotient(m.totalLatency, total) else 0,
          Qps(|m.recentHits|, |m.recentMisses|),
          if m.hits > 0 then map[EXACT := Percent(m.exactHits, m.hits), SEMANTIC := Percent(m.semanticHits, m.hits)] else map[],
          m.exactHits, m.semanticHits, Quotient(now - m.startTime, MS))
  }

  lemma PercentInRange(part: nat, whole: nat)
    requires part <= whole
    ensures 0.0 <= Percent(part, whole) <= 100.0
  {
    if whole > 0 {
      assert part as real / whole as real <= 1.0;
    }
  }

  /** The percentages lie in [0, 100], whatever was recorded. */
  lemma {:induction false} RatesAreInRange(start: int, run: seq<Event>, now: int)
    ensures var st := StatsOf(After(start, run), now);
      && 0.0 <= st.hitRate <= 100.0 && st.hitRate + st.missRate == 100.0
      && forall k :: k in st.strategyHitRate ==> 0.0 <= st.strategyHitRate[k] <= 100.0
  {
    CountersMatchHistory(start, run);
    StatsInRange(After(start, run), now);
  }

  lemma {:induction false} StatsInRange(m: Metrics, now: int)
    requires m.exactHits + m.semanticHits <= m.hits
    ensures var st := StatsOf(m, now);
      && 0.0 <= st.hitRate <= 100.0 && st.hitRate + st.missRate == 100.0
      && forall k :: k in st.strategyHitRate ==> 0.0 <= st.strategyHitRate[k] <= 100.0
  {
    PercentInRange(m.hits, m.hits + m.misses);
    PercentInRange(m.exactHits, m.hits);
    PercentInRange(m.semanticHits, m.hits);
  }

  /** When the statistics were last reset, or created. */
  function ResetTime(start: int, run: seq<Event>): int {
    if run == [] then start
    else if run[|run| - 1].Reset? then run[|run| - 1].now
    else ResetTime(start, run[..|run| - 1])
  }

  lemma {:induction false} StartTimeIsReset(start: int, run: seq<Event>)
    ensures After(start, run).startTime == ResetTime(start, run)
  {
    if run != [] { StartTimeIsReset(start, run[..|run| - 1]); }
  }

  /** `q` is a / b without its fraction. */
  predicate IsWhole(q: int, a: int, b: nat) {
    a >= 0 ==> q * b <= a < q * b + b
  }

  lemma QuotientIsWhole(a: int, b: nat)
    requires b > 0
    ensures IsWhole(Quotient(a, b), a, b)
  {
    assert a == (a / b) * b + a % b;
  }

  predicate IsPercent(rate: real, part: nat, whole: nat) {
    rate * whole as real == 100.0 * part as real
  }

  lemma PercentIs(part: nat, whole: nat)
    requires whole > 0
    ensures IsPercent(Percent(part, whole), part, whole)
  {
    var share := part as real / whole as real;
    assert share * whole as real == part as real;
    assert (share * 100.0) * whole as real == 100.0 * (share * whole as real);
  }

  /** What GetStats counts, by the hits, misses, sets and evictions since the last reset. */
  lemma {:induction false} CountsMatchHistory(start: int, run: seq<Event>, now: int)
    ensures var (st, hits, misses) := (StatsOf(After(start, run), now), |HitTimes(run)|, |MissTimes(run)|);
      && st.hits == hits && st.misses == misses && st.totalRequests == hits + misses
      && st.sets == StoredIn(SinceReset(run)) && st.evictions == EvictedIn(SinceReset(run))
      && st.exactHits == HitsOf(run, EXACT) && st.semanticHits == HitsOf(run, SEMANTIC)
      && IsWhole(st.uptime, now - ResetTime(start, run), MS)
  {
    CountersMatchHistory(start, run);
    TotalsMatchHistory(start, run);
    StartTimeIsReset(start, run);
    QuotientIsWhole(now - ResetTime(start, run), MS);
  }

  lemma RatesOf(m: Metrics, now: int)
    ensures var st := StatsOf(m, now);
      && (m.hits + m.misses > 0 ==> IsPercent(st.hitRate, m.hits, m.hits + m.misses) && IsPercent(st.missRate, m.misses, m.hits + m.misses))
      && (m.hits + m.misses == 0 ==> st.hitRate == 0.0 && st.missRate == 100.0)
  {
    var total := m.hits + m.misses;
    if total > 0 {
      PercentIs(m.hits, total);
      Complement(StatsOf(m, now).hitRate, m.hits, m.misses);
    }
  }

  lemma Complement(rate: real, part: nat, rest: nat)
    requires IsPercent(rate, part, part + rest)
    ensures IsPercent(100.0 - rate, rest, part + rest)
  {
    var whole := (part + rest) as real;
    assert whole == part as real + rest as real;
    assert (100.0 - rate) * whole == 100.0 * whole - rate * whole;
  }

  /** Hit and miss rate are the shares of the hits and the misses since the last reset. */
  lemma {:induction false} HitRateMatchesHistory(start: int, run: seq<Event>, now: int)
    ensures var (st, hits, misses) := (StatsOf(After(start, run), now), |HitTimes(run)|, |MissTimes(run)|);
      if hits + misses > 0 then IsPercent(st.hitRate, hits, hits + misses) && IsPercent(st.missRate, misses, hits + misses)
      else st.hitRate == 0.0 && st.missRate == 100.0
  {
    CountersMatchHistory(start, run);
    RatesOf(After(start, run), now);
  }

  lemma StrategyRatesOf(m: Metrics, now: int)
    ensures var rates := StatsOf(m, now).strategyHitRate;
      if m.hits > 0 then
        && rates.Keys == {EXACT, SEMANTIC}
        && IsPercent(rates[EXACT], m.exactHits, m.hits) && IsPercent(rates[SEMANTIC], m.semanticHits, m.hits)
      else rates == map[]
  {
    DifferentStrategies();
    if m.hits > 0 {
      PercentIs(m.exactHits, m.hits);
      PercentIs(m.semanticHits, m.hits);
    }
  }

  /** The strategies' rates are their shares of the hits since the last reset. */
  lemma {:induction false} StrategyRatesMatchHistory(start: int, run: seq<Event>, now: int)
    ensures var (rates, hits) := (StatsOf(After(start, run), now).strategyHitRate, |HitTimes(run)|);
      if hits > 0 then
        && rates.Keys == {EXACT, SEMANTIC}
        && IsPercent(rates[EXACT], HitsOf(run, EXACT), hits) && IsPercent(rates[SEMANTIC], HitsOf(run, SEMANTIC), hits)
      else rates == map[]
  {
    CountersMatchHistory(start, run);
    StrategyRatesOf(After(start, run), now);
  }

  /** The average latency is the total of the latencies since the last reset over their number. */
  lemma {:induction false} AverageMatchesHistory(start: int, run: seq<Event>, now: int)
    ensures var (st, n) := (StatsOf(After(start, run), now), |HitTimes(run)| + |MissTimes(run)|);
      n > 0 ==> IsWhole(st.avgLatency, Total(SinceReset(run)), n)
  {
    CountersMatchHistory(start, run);
    TotalsMatchHistory(start, run);
    if |HitTimes(run)| + |MissTimes(run)| > 0 {
      QuotientIsWhole(Total(SinceReset(run)), |HitTimes(run)| + |MissTimes(run)|);
    }
  }

  ghost predicate LatenciesWithin(run: seq<Event>, lo: nat, hi: nat) {
    forall i :: 0 <= i < |run| && (run[i].Hit? || run[i].Miss?) ==> lo <= Latency(run[i]) <= hi
  }

  ghost predicate TotalWithin(m: Metrics, lo: nat, hi: nat) {
    lo * (m.hits + m.misses) <= m.totalLatency <= hi * (m.hits + m.misses)
  }

  lemma OneMoreWithin(m: Metrics, e: Event, lo: nat, hi: nat)
    requires TotalWithin(m, lo, hi) && (e.Hit? || e.Miss? ==> lo <= Latency(e) <= hi)
    ensures TotalWithin(Step(m, e), lo, hi)
  {
    var n := m.hits + m.misses;
    assert lo * (n + 1) == lo * n + lo && hi * (n + 1) == hi * n + hi;
  }

  lemma {:induction false} RunTotalWithin(start: int, run: seq<Event>, lo: nat, hi: nat)
    requires LatenciesWithin(run, lo, hi)
    ensures TotalWithin(After(start, run), lo, hi)
  {
    if run != [] {
      RunTotalWithin(start, run[..|run| - 1], lo, hi);
      OneMoreWithin(After(start, run[..|run| - 1]), run[|run| - 1], lo, hi);
    }
  }

  lemma {:induction false} AverageWithin(m: Metrics, now: int, lo: nat, hi: nat)
    requires TotalWithin(m, lo, hi)
    ensures m.hits + m.misses > 0 ==> lo <= StatsOf(m, now).avgLatency <= hi
  {
    if m.hits + m.misses > 0 {
      QuotientWithin(m.totalLatency, m.hits + m.misses, lo, hi);
    }
  }

  lemma Times(a: int, b: int, n: nat)
    requires a <= b
    ensures a * n <= b * n
  {
    assert b * n == a * n + (b - a) * n;
  }

  /** Multiplying by n is monotone, so it can be cancelled. */
  lemma Cancel(a: int, b: int, n: nat)
    requires a * n < b * n
    ensures a < b
  {
    if b <= a { Times(b, a, n); }
  }

  lemma QuotientWithin(a: int, n: nat, lo: nat, hi: nat)
    requires n > 0 && lo * n <= a <= hi * n
    ensures lo <= Quotient(a, n) <= hi
  {
    var q, r := a / n, a % n;
    assert a == q * n + r && 0 <= r < n;
    assert lo * n < (q + 1) * n;
    Cancel(lo, q + 1, n);
    assert q * n < (hi + 1) * n;
    Cancel(q, hi + 1, n);
  }

  /** The average latency lies between the least and the greatest one recorded. */
  lemma {:induction false} AverageIsInRange(start: int, run: seq<Event>, now: int, lo: nat, hi: nat)
    requires LatenciesWithin(run, lo, hi)
    ensures StatsOf(After(start, run), now).totalRequests > 0 ==> lo <= StatsOf(After(start, run), now).avgLatency <= hi
    ensures StatsOf(After(start, run), now).totalRequests == 0 ==> StatsOf(After(start, run), now).avgLatency == 0
  {
    RunTotalWithin(start, run, lo, hi);
    AverageWithin(After(start, run), now, lo, hi);
  }

  /** `recent` is what the whole history shows at its last time. */
  predicate Exact(recent: seq<int>, history: seq<int>) {
    if history == [] then recent == [] else recent == Cut(history, history[|history| - 1])
  }

  lemma TrimmedIsExact(history: seq<int>)
    requires Sorted(history)
    ensures Exact(Trimmed(history), history)
  {
    if history != [] { TrimmingLosesNothing(history); }
  }

  /** After every run each window holds exactly the newest (at most 1000) of the hits, or misses,
      of the minute before the last one recorded. */
  lemma {:induction false} WindowsMatchHistory(start: int, run: seq<Event>)
    requires Sorted(HitTimes(run)) && Sorted(MissTimes(run))
    ensures Exact(After(start, run).recentHits, HitTimes(run))
    ensures Exact(After(start, run).recentMisses, MissTimes(run))
  {
    CountersMatchHistory(start, run);
    TrimmedIsExact(HitTimes(run));
    TrimmedIsExact(MissTimes(run));
  }

  /** The rate of the last minute at `now`, from the whole history. */
  function TrueQps(run: seq<Event>, now: int): real {
    Qps(TrueCount(HitTimes(run), now), TrueCount(MissTimes(run), now))
  }

  /** The reported rate is the true one exactly when the elements that have left the minute are as
      many as the ones the windows hide. */
  lemma {:induction false} QpsIsTrueIff(start: int, run: seq<Event>, now: int)
    requires Sorted(HitTimes(run)) && Sorted(MissTimes(run))
    ensures var m := After(start, run);
      StatsOf(m, now).recentQPS == TrueQps(run, now)
      <==> Old(m.recentHits, now - WINDOW_NS) + Old(m.recentMisses, now - WINDOW_NS)
           == Hidden(HitTimes(run), now) + Hidden(MissTimes(run), now)
  {
    CountersMatchHistory(start, run);
    WindowBalance(HitTimes(run), now);
    WindowBalance(MissTimes(run), now);
  }

  /** While both windows are below the cap the reported rate is never too low, and right exactly
      when no window begins with an element that has left the minute. */
  lemma {:induction false} ShortWindowsQpsIff(start: int, run: seq<Event>, now: int)
    requires Sorted(HitTimes(run)) && Sorted(MissTimes(run)) && UpTo(HitTimes(run), now) && UpTo(MissTimes(run), now)
    requires |After(start, run).recentHits| < WINDOW_LIMIT && |After(start, run).recentMisses| < WINDOW_LIMIT
    ensures var (m, st) := (After(start, run), StatsOf(After(start, run), now));
      && st.recentQPS >= TrueQps(run, now)
      && (st.recentQPS == TrueQps(run, now) <==> !FirstIsStale(m.recentHits, now) && !FirstIsStale(m.recentMisses, now))
  {
    CountersMatchHistory(start, run);
    ShortWindowIsTrueIff(HitTimes(run), now);
    ShortWindowIsTrueIff(MissTimes(run), now);
  }

  // ---- the code ----

  class Recorder {
    var hits: nat
    var misses: nat
    var sets: nat
    var evictions: nat
    var totalLatency: int
    var exactHits: nat
    var semanticHits: nat
    var recentHits: seq<int>
    var recentMisses: seq<int>
    var startTime: int

    function View(): Metrics
      reads this
    {
      Metrics(hits, misses, sets, evictions, totalLatency, exactHits, semanticHits, recentHits, recentMisses, startTime)
    }

    constructor (now: int)
      ensures View() == After(now, [])
    {
      hits, misses, sets, evictions, totalLatency := 0, 0, 0, 0, 0;
      exactHits, semanticHits, recentHits, recentMisses, startTime := 0, 0, [], [], now;
    }

    /** The filter loop and the truncation shared by both windows. */
    static method Trim(recent: seq<int>, now: int) returns (valid: seq<int>)
      ensures valid == Cut(recent, now)
    {
      var cutoff := now - WINDOW_NS;
      valid := [];
      for i := 0 to |recent|
        invariant valid == Newer(recent[..i], cutoff)
      {
        assert recent[..i + 1][..i] == recent[..i];
        if recent[i] > cutoff {
          valid := valid + [recent[i]];
        }
      }
      assert recent[..|recent|] == recent;
      if |valid| > WINDOW_LIMIT {
        valid := valid[|valid| - WINDOW_LIMIT..];
      }
    }

    method CountStrategy(strategy: string)
      modifies this`exactHits, this`semanticHits
      ensures exactHits == old(exactHits) + Counts(strategy, EXACT)
      ensures semanticHits == old(semanticHits) + Counts(strategy, SEMANTIC)
    {
      DifferentStrategies();
      if strategy == EXACT {
        exactHits := exactHits + 1;
      } else if strategy == SEMANTIC {
        semanticHits := semanticHits + 1;
      }
    }

    method RecordHit(strategy: string, latency: int, now: int)
      modifies this
      ensures View() == Step(old(View()), Hit(strategy, latency, now))
    {
      hits := hits + 1;
      totalLatency := totalLatency + latency;
      CountStrategy(strategy);
      recentHits := recentHits + [now];
      recentHits := Trim(recentHits, now);
      assert recentHits == Record(old(recentHits), now);
    }

    method RecordMiss(latency: int, now: int)
      modifies this
      ensures View() == Step(old(View()), Miss(latency, now))
    {
      misses := misses + 1;
      totalLatency := totalLatency + latency;
      recentMisses := recentMisses + [now];
      recentMisses := Trim(recentMisses, now);
    }

    method RecordSet()
      modifies this`sets
      ensures View() == Step(old(View()), Stored)
    {
      sets := sets + 1;
    }

    method RecordEviction()
      modifies this`evictions
      ensures View() == Step(old(View()), Evicted)
    {
      evictions := evictions + 1;
    }

    method ResetAll(now: int)
      modifies this
      ensures View() == Step(old(View()), Reset(now))
    {
      hits, misses, sets, evictions, totalLatency := 0, 0, 0, 0, 0;
      exactHits, semanticHits, recentHits, recentMisses, startTime := 0, 0, [], [], now;
    }

    method GetStats(now: int) returns (stats: Stats)
      ensures stats == StatsOf(View(), now)
    {
      var total := hits + misses;
      var hitRate := 0.0;
      if total > 0 {
        hitRate := hits as real / total as real * 100.0;
      }
      var avgLatency := 0;
      if total > 0 {
        avgLatency := Quotient(totalLatency, total);
      }
      var recentQPS := 0.0;
      if |recentHits| + |recentMisses| > 0 {
        recentQPS := (|recentHits| + |recentMisses|) as real / 60.0;
      }
      var strategyHitRate: map<string, real> := map[];
      if hits > 0 {
        strategyHitRate := strategyHitRate[EXACT := exactHits as real / hits as real * 100.0];
        strategyHitRate := strategyHitRate[SEMANTIC := semanticHits as real / hits as real * 100.0];
      }
      return Stats(hits, misses, sets, evictions, total, hitRate, 100.0 - hitRate, avgLatency, recentQPS,
                   strategyHitRate, exactHits, semanticHits, Quotient(now - startTime, MS));
    }
  }
}
