/**
 The TTL cache in front of the rule store. Price calls overlap: each reads the clock, looks in
 the cache, lists rules once or twice and writes the cache, with other calls, store edits and
 invalidations in between. The store's contents are a growing list of versions.
 */
module PricingCache {
  import opened Basics
  import opened PricingRules

  /** Where a price was read: the query it answers, the versions its listings saw, the lists they
      returned, and the time of the first one. */
  datatype Origin = Origin(q: Query, first: nat, second: nat, list1: Rules, list2: Rules, readAt: int)

  datatype Priced = Priced(info: PriceInfo, origin: Origin)

  datatype Cached = Cached(price: Priced, expiresAt: int)

  /** Where one price call stands; `now` is its clock reading. */
  datatype Call =
    | Begun(q: Query, now: int)
    | Missed(q: Query, now: int)
    | SecondList(q: Query, now: int, first: nat, list1: Rules, readAt: int)
    | Resolved(q: Query, now: int, price: Priced)
    | Returned(q: Query, now: int, price: Priced)
    | Failed

  /** `stamps[v]` is when version v became current. */
  datatype State = State(
    versions: seq<Rules>, stamps: seq<int>, clock: int,
    cache: map<string, Cached>, epoch: nat, calls: seq<Call>)

  datatype Action =
    | Begin(q: Query)
    | Look(i: nat)            // the read-locked lookup
    | List(i: nat, rules: Rules)      // the first listing, in whatever order the store gives
    | ListCost(i: nat, rules: Rules)  // the second listing
    | ListFails(i: nat)
    | Put(i: nat)             // the write-locked store, and return
    | Edit(rules: Rules)
    | Tick(to: int)
    | Invalidate

  // ---- cache keys ----

  const NUL := 0 as char

  function CacheKey(q: Query): string {
    if q.kind.None? then q.backend + [NUL] + q.model
    else q.backend + [NUL] + q.model + [NUL] + q.kind.value
  }

  predicate CleanQuery(q: Query) {
    Free(q.backend, NUL) && Free(q.model, NUL) && (q.kind.Some? ==> Free(q.kind.value, NUL))
  }

  /** The key without its backend. */
  function KeyTail(q: Query): string {
    if q.kind.None? then q.model else q.model + [NUL] + q.kind.value
  }

  lemma KeyTailNul(q: Query)
    requires Free(q.model, NUL)
    ensures Free(KeyTail(q), NUL) <==> q.kind.None?
  {
    if q.kind.Some? {
      assert KeyTail(q)[|q.model|] == NUL;
    }
  }

  /** Names without NUL never share a cache entry. */
  lemma CacheKeyIsInjective(p: Query, q: Query)
    requires CleanQuery(p) && CleanQuery(q) && CacheKey(p) == CacheKey(q)
    ensures p == q
  {
    assert CacheKey(p) == p.backend + [NUL] + KeyTail(p) && CacheKey(q) == q.backend + [NUL] + KeyTail(q);
    KeyTailNul(p);
    KeyTailNul(q);
    SplitAtFirst(p.backend, KeyTail(p), q.backend, KeyTail(q), NUL);
    if p.kind.Some? {
      SplitAtFirst(p.model, p.kind.value, q.model, q.kind.value, NUL);
    }
  }

  /** Names with NUL can: an untyped query of one model reads the typed entry of another. */
  lemma CacheKeysCollide(backend: string, model: string, priceType: string)
    ensures CacheKey(Query(backend, model + [NUL] + priceType, None)) == CacheKey(Query(backend, model, Some(priceType)))
  {
    assert backend + [NUL] + (model + [NUL] + priceType) == backend + [NUL] + model + [NUL] + priceType;
  }

  predicate Unshared(q: Query) {
    q.kind.None? && Free(q.backend, NUL) && Free(q.model, NUL)
  }

  /** Another query with the key of a typed one, or of one with a NUL in a name. */
  lemma SharesKey(q: Query) returns (p: Query)
    requires !Unshared(q)
    ensures p != q && CacheKey(p) == CacheKey(q)
  {
    if q.kind.Some? {
      p := Query(q.backend, q.model + [NUL] + q.kind.value, None);
      CacheKeysCollide(q.backend, q.model, q.kind.value);
    } else if i :| 0 <= i < |q.backend| && q.backend[i] == NUL {
      var a, b := q.backend[..i], q.backend[i + 1..];
      p := Query(a, b + [NUL] + q.model, None);
      assert q.backend == a + [NUL] + b;
      assert a + [NUL] + (b + [NUL] + q.model) == a + [NUL] + b + [NUL] + q.model;
      assert |p.backend| < |q.backend|;
    } else {
      var i :| 0 <= i < |q.model| && q.model[i] == NUL;
      p := Query(q.backend, q.model[..i], Some(q.model[i + 1..]));
      assert q.model == q.model[..i] + [NUL] + q.model[i + 1..];
      CacheKeysCollide(q.backend, q.model[..i], q.model[i + 1..]);
    }
  }

  lemma TypedTailHasNul(q: Query)
    requires q.kind.Some?
    ensures !Free(KeyTail(q), NUL)
  {
    assert KeyTail(q)[|q.model|] == NUL;
  }

  lemma KeyHasOneNul(p: Query, q: Query)
    requires Unshared(q) && CacheKey(p) == CacheKey(q)
    ensures p == q
  {
    var key := CacheKey(q);
    assert key == p.backend + [NUL] + KeyTail(p) && key[|p.backend|] == NUL;
    OnlySeparator(q.backend, q.model, NUL, |p.backend|);
    assert p.backend == key[..|p.backend|] && q.backend == key[..|q.backend|];
    assert KeyTail(p) == key[|p.backend| + 1..] && q.model == key[|q.backend| + 1..];
    if p.kind.Some? {
      TypedTailHasNul(p);
    }
  }

  /** A query shares its cache entry with no other one exactly when it is untyped and its names contain no NUL. */
  lemma KeyUnsharedIff(q: Query)
    ensures (forall p :: CacheKey(p) == CacheKey(q) ==> p == q) <==> Unshared(q)
  {
    if Unshared(q) {
      forall p | CacheKey(p) == CacheKey(q) ensures p == q { KeyHasOneNul(p, q); }
    } else {
      var p := SharesKey(q);
    }
  }

  // ---- steps ----

  /** The memory store lists its map in a new order every time. */
  predicate Lists(s: State, rules: Rules) {
    s.versions != [] && Permuted(rules, s.versions[|s.versions| - 1])
  }

  predicate Enabled(s: State, a: Action) {
    match a
    case Look(i) => i < |s.calls| && s.calls[i].Begun?
    case List(i, rules) => i < |s.calls| && s.calls[i].Missed? && Lists(s, rules)
    case ListCost(i, rules) => i < |s.calls| && s.calls[i].SecondList? && Lists(s, rules)
    case ListFails(i) => i < |s.calls| && (s.calls[i].Missed? || s.calls[i].SecondList?)
    case Put(i) => i < |s.calls| && s.calls[i].Resolved?
    case Tick(to) => s.clock <= to
    case _ => true
  }

  function Looked(s: State, c: Call): Call
    requires c.Begun?
  {
    var key := CacheKey(c.q);
    if key in s.cache && c.now < s.cache[key].expiresAt then Returned(c.q, c.now, s.cache[key].price)
    else Missed(c.q, c.now)
  }

  function Listed(s: State, c: Call, rules: Rules): Call
    requires c.Missed? && s.versions != []
  {
    var v := |s.versions| - 1;
    if FallsBack(rules, c.q) then SecondList(c.q, c.now, v, rules, s.clock)
    else Resolved(c.q, c.now, Priced(Answer(rules, rules, c.q), Origin(c.q, v, v, rules, rules, s.clock)))
  }

  function CostListed(s: State, c: Call, rules: Rules): Call
    requires c.SecondList? && s.versions != []
  {
    var v := |s.versions| - 1;
    Resolved(c.q, c.now, Priced(Answer(c.list1, rules, c.q), Origin(c.q, c.first, v, c.list1, rules, c.readAt)))
  }

  /** Call i returns its price. */
  function Delivered(s: State, i: nat): State
    requires i < |s.calls| && s.calls[i].Resolved?
  {
    var c := s.calls[i];
    s.(calls := s.calls[i := Returned(c.q, c.now, c.price)])
  }

  /** An entry joins the cache. */
  function Entered(s: State, key: string, entry: Cached): State {
    s.(cache := s.cache[key := entry])
  }

  function Stored(ttl: int, s: State, i: nat): State
    requires i < |s.calls| && s.calls[i].Resolved?
  {
    var c := s.calls[i];
    Entered(Delivered(s, i), CacheKey(c.q), Cached(c.price, c.now + ttl))
  }

  function Apply(ttl: int, s: State, a: Action): State
    requires Enabled(s, a)
  {
    match a
    case Begin(q) => s.(calls := s.calls + [Begun(q, s.clock)])
    case Look(i) => s.(calls := s.calls[i := Looked(s, s.calls[i])])
    case List(i, rules) => s.(calls := s.calls[i := Listed(s, s.calls[i], rules)])
    case ListCost(i, rules) => s.(calls := s.calls[i := CostListed(s, s.calls[i], rules)])
    case ListFails(i) => s.(calls := s.calls[i := Failed])
    case Put(i) => Stored(ttl, s, i)
    case Edit(rules) => s.(versions := s.versions + [rules], stamps := s.stamps + [s.clock])
    case Tick(to) => s.(clock := to)
    case Invalidate => s.(cache := map[], epoch := s.epoch + 1)
  }

  predicate Init(s: State) {
    |s.versions| == 1 && s.stamps == [s.clock] && s.cache == map[] && s.epoch == 0 && s.calls == []
  }

  predicate Runs(ttl: int, s: State, run: seq<Action>)
    decreases |run|
  {
    run == [] || (Enabled(s, run[0]) && Runs(ttl, Apply(ttl, s, run[0]), run[1..]))
  }

  function Final(ttl: int, s: State, run: seq<Action>): State
    requires Runs(ttl, s, run)
    decreases |run|
  {
    if run == [] then s else Final(ttl, Apply(ttl, s, run[0]), run[1..])
  }

  ghost predicate Reachable(ttl: int, s: State) {
    exists s0: State, run: seq<Action> :: Init(s0) && Runs(ttl, s0, run) && Final(ttl, s0, run) == s
  }

  // ---- the invariant ----

  /** Version v was current at time t. */
  predicate CurrentAt(s: State, v: nat, t: int)
    requires |s.stamps| == |s.versions|
  {
    v < |s.versions| && s.stamps[v] <= t <= s.clock && (v + 1 < |s.versions| ==> t <= s.stamps[v + 1])
  }

  predicate PricedOk(s: State, p: Priced)
    requires |s.stamps| == |s.versions|
  {
    && p.origin.first <= p.origin.second < |s.versions|
    && CurrentAt(s, p.origin.first, p.origin.readAt)
    && Permuted(p.origin.list1, s.versions[p.origin.first]) && Permuted(p.origin.list2, s.versions[p.origin.second])
    && p.info == Answer(p.origin.list1, p.origin.list2, p.origin.q)
  }

  predicate CachedOk(ttl: int, s: State, key: string, c: Cached)
    requires |s.stamps| == |s.versions|
  {
    PricedOk(s, c.price) && c.expiresAt <= c.price.origin.readAt + ttl && CacheKey(c.price.origin.q) == key
  }

  predicate CallOk(ttl: int, s: State, c: Call)
    requires |s.stamps| == |s.versions|
  {
    match c
    case Begun(_, now) => now <= s.clock
    case Missed(_, now) => now <= s.clock
    case SecondList(q, now, first, list1, readAt) =>
      CurrentAt(s, first, readAt) && now <= readAt && Permuted(list1, s.versions[first]) && FallsBack(list1, q)
    case Resolved(q, now, p) => PricedOk(s, p) && p.origin.q == q && now <= p.origin.readAt
    case Returned(q, now, p) => PricedOk(s, p) && CacheKey(p.origin.q) == CacheKey(q) && now - ttl < p.origin.readAt
    case Failed => true
  }

  ghost predicate Inv(ttl: int, s: State) {
    && |s.stamps| == |s.versions| > 0 && s.stamps[|s.stamps| - 1] <= s.clock
    && (forall k :: k in s.cache ==> CachedOk(ttl, s, k, s.cache[k]))
    && (forall i :: 0 <= i < |s.calls| ==> CallOk(ttl, s, s.calls[i]))
  }

  /** Time may have passed and one version may have been added. */
  predicate Later(s: State, t: State) {
    && |s.stamps| == |s.versions| > 0 && |t.stamps| == |t.versions| && s.clock <= t.clock
    && ((t.versions == s.versions && t.stamps == s.stamps)
        || (|t.versions| == |s.versions| + 1 && t.versions[..|s.versions|] == s.versions
            && t.stamps == s.stamps + [s.clock]))
  }

  /** What holds of a price keeps holding when time passes or the store is edited. */
  lemma StillPriced(s: State, t: State, p: Priced)
    requires Later(s, t) && PricedOk(s, p)
    ensures PricedOk(t, p)
  {
    assert t.versions[p.origin.first] == s.versions[p.origin.first];
    assert t.versions[p.origin.second] == s.versions[p.origin.second];
  }

  lemma StillOk(ttl: int, s: State, t: State, c: Call)
    requires Later(s, t) && CallOk(ttl, s, c)
    ensures CallOk(ttl, t, c)
  {
    if c.Resolved? || c.Returned? {
      StillPriced(s, t, c.price);
    } else if c.SecondList? {
      assert t.versions[c.first] == s.versions[c.first];
    }
  }

  lemma StillCached(ttl: int, s: State, t: State, key: string, entry: Cached)
    requires Later(s, t) && CachedOk(ttl, s, key, entry)
    ensures CachedOk(ttl, t, key, entry)
  {
    StillPriced(s, t, entry.price);
  }

  lemma {:induction false} LaterInv(ttl: int, s: State, t: State)
    requires Inv(ttl, s) && Later(s, t) && t.cache == s.cache && t.calls == s.calls
    ensures Inv(ttl, t)
  {
    forall i | 0 <= i < |s.calls| ensures CallOk(ttl, t, s.calls[i]) { StillOk(ttl, s, t, s.calls[i]); }
    forall k | k in s.cache ensures CachedOk(ttl, t, k, s.cache[k]) { StillCached(ttl, s, t, k, s.cache[k]); }
  }

  /** One call moves on; the store and the clock stand still. */
  lemma MoveInv(ttl: int, s: State, i: nat, c: Call)
    requires Inv(ttl, s) && i < |s.calls| && CallOk(ttl, s, c)
    ensures Inv(ttl, s.(calls := s.calls[i := c]))
  {
    var t := s.(calls := s.calls[i := c]);
    forall j | 0 <= j < |t.calls| ensures CallOk(ttl, t, t.calls[j]) { StillOk(ttl, s, t, t.calls[j]); }
    forall k | k in s.cache ensures CachedOk(ttl, t, k, s.cache[k]) { StillCached(ttl, s, t, k, s.cache[k]); }
  }

  lemma {:induction false} CacheInv(ttl: int, s: State, cache: map<string, Cached>)
    requires Inv(ttl, s) && forall k :: k in cache ==> CachedOk(ttl, s, k, cache[k])
    ensures Inv(ttl, s.(cache := cache))
  {
    var t := s.(cache := cache);
    forall j | 0 <= j < |t.calls| ensures CallOk(ttl, t, t.calls[j]) { StillOk(ttl, s, t, t.calls[j]); }
    forall k | k in cache ensures CachedOk(ttl, t, k, cache[k]) { StillPriced(s, t, cache[k].price); }
  }

  lemma {:induction false} BeginInv(ttl: int, s: State, q: Query)
    requires Inv(ttl, s)
    ensures Inv(ttl, s.(calls := s.calls + [Begun(q, s.clock)]))
  {
    var t := s.(calls := s.calls + [Begun(q, s.clock)]);
    forall j | 0 <= j < |t.calls| ensures CallOk(ttl, t, t.calls[j]) {
      StillOk(ttl, s, t, if j < |s.calls| then s.calls[j] else Begun(q, s.clock));
    }
    forall k | k in s.cache ensures CachedOk(ttl, t, k, s.cache[k]) { StillCached(ttl, s, t, k, s.cache[k]); }
  }

  lemma LookedOk(ttl: int, s: State, c: Call)
    requires ttl > 0 && Inv(ttl, s) && CallOk(ttl, s, c) && c.Begun?
    ensures CallOk(ttl, s, Looked(s, c))
  {
    var key := CacheKey(c.q);
    if key in s.cache { assert CachedOk(ttl, s, key, s.cache[key]); }
  }

  lemma NowIsCurrent(ttl: int, s: State)
    requires Inv(ttl, s)
    ensures CurrentAt(s, |s.versions| - 1, s.clock)
  {
  }

  lemma ListedOk(ttl: int, s: State, c: Call, rules: Rules)
    requires Inv(ttl, s) && CallOk(ttl, s, c) && Lists(s, rules) && c.Missed?
    ensures CallOk(ttl, s, Listed(s, c, rules))
  {
    NowIsCurrent(ttl, s);
  }

  lemma CostListedOk(ttl: int, s: State, c: Call, rules: Rules)
    requires Inv(ttl, s) && CallOk(ttl, s, c) && Lists(s, rules) && c.SecondList?
    ensures CallOk(ttl, s, CostListed(s, c, rules))
  {
  }

  lemma PutOk(ttl: int, s: State, c: Call)
    requires ttl > 0 && |s.stamps| == |s.versions| && c.Resolved? && CallOk(ttl, s, c)
    ensures CachedOk(ttl, s, CacheKey(c.q), Cached(c.price, c.now + ttl))
    ensures CallOk(ttl, s, Returned(c.q, c.now, c.price))
  {
  }

  /** One good entry joins the cache. */
  lemma {:induction false} EntryInv(ttl: int, s: State, key: string, entry: Cached)
    requires Inv(ttl, s) && CachedOk(ttl, s, key, entry)
    ensures Inv(ttl, Entered(s, key, entry))
  {
    var cache := s.cache[key := entry];
    forall k | k in cache ensures CachedOk(ttl, s, k, cache[k]) {
      if k != key { assert CachedOk(ttl, s, k, s.cache[k]); }
    }
    CacheInv(ttl, s, cache);
  }

  /** The call returns; its price may be cached. */
  lemma {:induction false} DeliveredInv(ttl: int, s: State, i: nat)
    requires ttl > 0 && Inv(ttl, s) && i < |s.calls| && s.calls[i].Resolved?
    ensures var c := s.calls[i];
      Inv(ttl, Delivered(s, i)) && CachedOk(ttl, Delivered(s, i), CacheKey(c.q), Cached(c.price, c.now + ttl))
  {
    var c := s.calls[i];
    assert CallOk(ttl, s, c);
    PutOk(ttl, s, c);
    MoveInv(ttl, s, i, Returned(c.q, c.now, c.price));
    StillCached(ttl, s, Delivered(s, i), CacheKey(c.q), Cached(c.price, c.now + ttl));
  }

  lemma {:induction false} PutInv(ttl: int, s: State, i: nat)
    requires ttl > 0 && Inv(ttl, s) && i < |s.calls| && s.calls[i].Resolved?
    ensures Inv(ttl, Stored(ttl, s, i))
  {
    var c := s.calls[i];
    var delivered := Delivered(s, i);
    DeliveredInv(ttl, s, i);
    StoredInv(ttl, delivered, CacheKey(c.q), Cached(c.price, c.now + ttl), Stored(ttl, s, i));
  }

  lemma {:induction false} StoredInv(ttl: int, s: State, key: string, entry: Cached, t: State)
    requires Inv(ttl, s) && CachedOk(ttl, s, key, entry) && t == Entered(s, key, entry)
    ensures Inv(ttl, t)
  {
    EntryInv(ttl, s, key, entry);
  }

  lemma {:induction false} CallStepInv(ttl: int, s: State, a: Action)
    requires ttl > 0 && Inv(ttl, s) && Enabled(s, a) && (a.Look? || a.List? || a.ListCost? || a.ListFails?)
    ensures Inv(ttl, Apply(ttl, s, a))
  {
    var c := s.calls[a.i];
    if a.Look? {
      LookedOk(ttl, s, c);
    } else if a.List? {
      ListedOk(ttl, s, c, a.rules);
    } else if a.ListCost? {
      CostListedOk(ttl, s, c, a.rules);
    }
    MoveInv(ttl, s, a.i, Apply(ttl, s, a).calls[a.i]);
  }

  lemma {:induction false} EnvironmentInv(ttl: int, s: State, a: Action)
    requires ttl > 0 && Inv(ttl, s) && Enabled(s, a) && (a.Edit? || a.Tick? || a.Invalidate?)
    ensures Inv(ttl, Apply(ttl, s, a))
  {
    if a.Invalidate? {
      CacheInv(ttl, s, map[]);
      LaterInv(ttl, s.(cache := map[]), Apply(ttl, s, a));
    } else {
      LaterInv(ttl, s, Apply(ttl, s, a));
    }
  }

  lemma {:induction false} StepInv(ttl: int, s: State, a: Action)
    requires ttl > 0 && Inv(ttl, s) && Enabled(s, a)
    ensures Inv(ttl, Apply(ttl, s, a))
  {
    match a
    case Begin(q) => BeginInv(ttl, s, q);
    case Put(i) => PutInv(ttl, s, i);
    case Edit(_) => EnvironmentInv(ttl, s, a);
    case Tick(_) => EnvironmentInv(ttl, s, a);
    case Invalidate => EnvironmentInv(ttl, s, a);
    case _ => CallStepInv(ttl, s, a);
  }

  lemma {:induction false} RunInv(ttl: int, s: State, run: seq<Action>)
    requires ttl > 0 && Inv(ttl, s) && Runs(ttl, s, run)
    ensures Inv(ttl, Final(ttl, s, run))
    decreases |run|
  {
    if run != [] {
      StepInv(ttl, s, run[0]);
      RunInv(ttl, Apply(ttl, s, run[0]), run[1..]);
    }
  }

  lemma ReachableInv(ttl: int, s: State)
    requires ttl > 0 && Reachable(ttl, s)
    ensures Inv(ttl, s)
  {
    var s0: State, run: seq<Action> :| Init(s0) && Runs(ttl, s0, run) && Final(ttl, s0, run) == s;
    RunInv(ttl, s0, run);
  }

  /** However the calls overlap, a call that began at `now` returns the price that the store's
      versions, each listed in some order, give for its cache key, the first of them current at some
      moment later than now - ttl. */
  lemma BoundedStaleness(ttl: int, s: State, i: nat)
    requires ttl > 0 && Reachable(ttl, s) && i < |s.calls| && s.calls[i].Returned?
    ensures var (c, o) := (s.calls[i], s.calls[i].price.origin);
      && |s.stamps| == |s.versions| && o.first <= o.second < |s.versions|
      && Permuted(o.list1, s.versions[o.first]) && Permuted(o.list2, s.versions[o.second])
      && c.price.info == Answer(o.list1, o.list2, o.q)
      && c.now - ttl < o.readAt && CurrentAt(s, o.first, o.readAt)
      && CacheKey(o.q) == CacheKey(c.q)
      && (CleanQuery(c.q) && CleanQuery(o.q) ==> o.q == c.q)
  {
    ReachableInv(ttl, s);
    if CleanQuery(s.calls[i].q) && CleanQuery(s.calls[i].price.origin.q) {
      CacheKeyIsInjective(s.calls[i].q, s.calls[i].price.origin.q);
    }
  }

  /** A call whose listing fails returns an error and caches nothing. */
  lemma FailureCachesNothing(ttl: int, s: State, i: nat)
    requires Enabled(s, ListFails(i))
    ensures var t := Apply(ttl, s, ListFails(i));
      t.cache == s.cache && i < |t.calls| && t.calls[i] == Failed && forall a :: a == Put(i) || a == Look(i) ==> !Enabled(t, a)
  {
  }

  // ---- when an invalidation takes effect ----

  /** Something that still holds a price read before version v0 could hand it to a call that begins
      now: a cache entry, or a call that has listed and not yet written. */
  ghost predicate OldCopy(ttl: int, s: State, v0: nat) {
    || (exists k :: k in s.cache && s.cache[k].price.origin.first < v0 && s.clock < s.cache[k].expiresAt)
    || InFlight(ttl, s, v0)
  }

  ghost predicate InFlight(ttl: int, s: State, v0: nat) {
    exists i :: 0 <= i < |s.calls| && HoldsOld(s.calls[i], v0) && s.clock < s.calls[i].now + ttl
  }

  predicate HoldsOld(c: Call, v0: nat) {
    (c.Resolved? && c.price.origin.first < v0) || (c.SecondList? && c.first < v0)
  }

  /** Some continuation makes a call from position n on return a price read before version v0. */
  ghost predicate CanServeOld(ttl: int, s: State, n: nat, v0: nat) {
    exists run: seq<Action> :: Runs(ttl, s, run) && ServedOld(Final(ttl, s, run), n, v0)
  }

  ghost predicate ServedOld(s: State, n: nat, v0: nat) {
    exists i :: n <= i < |s.calls| && s.calls[i].Returned? && s.calls[i].price.origin.first < v0
  }

  /** No old copy outlives time t0, and no call from position n on has one. */
  ghost predicate OnlyNew(ttl: int, s: State, n: nat, v0: nat, t0: int) {
    && t0 <= s.clock && v0 < |s.versions|
    && (forall k :: k in s.cache && s.cache[k].price.origin.first < v0 ==> s.cache[k].expiresAt <= t0)
    && (forall i :: 0 <= i < |s.calls| && HoldsOld(s.calls[i], v0) ==> s.calls[i].now + ttl <= t0)
    && (forall i :: n <= i < |s.calls| ==>
          (s.calls[i].Begun? ==> t0 <= s.calls[i].now)
          && (s.calls[i].Returned? ==> s.calls[i].price.origin.first >= v0)
          && !HoldsOld(s.calls[i], v0))
  }

  lemma OnlyNewStep(ttl: int, s: State, a: Action, n: nat, v0: nat, t0: int)
    requires Enabled(s, a) && OnlyNew(ttl, s, n, v0, t0)
    ensures OnlyNew(ttl, Apply(ttl, s, a), n, v0, t0)
  {
  }

  lemma {:induction false} OnlyNewRun(ttl: int, s: State, run: seq<Action>, n: nat, v0: nat, t0: int)
    requires Runs(ttl, s, run) && OnlyNew(ttl, s, n, v0, t0)
    ensures OnlyNew(ttl, Final(ttl, s, run), n, v0, t0)
    decreases |run|
  {
    if run != [] {
      OnlyNewStep(ttl, s, run[0], n, v0, t0);
      OnlyNewRun(ttl, Apply(ttl, s, run[0]), run[1..], n, v0, t0);
    }
  }

  lemma OneStepBack(ttl: int, s: State, a: Action, n: nat, v0: nat)
    requires Enabled(s, a) && CanServeOld(ttl, Apply(ttl, s, a), n, v0)
    ensures CanServeOld(ttl, s, n, v0)
  {
    var run: seq<Action> :| Runs(ttl, Apply(ttl, s, a), run) && ServedOld(Final(ttl, Apply(ttl, s, a), run), n, v0);
    assert ([a] + run)[1..] == run;
    assert Runs(ttl, s, [a] + run);
  }

  /** A new call for the query that wrote a live cache entry returns that entry. */
  lemma {:induction false} CacheServes(ttl: int, s: State, k: string, v0: nat)
    requires ttl > 0 && Inv(ttl, s) && k in s.cache
    requires s.cache[k].price.origin.first < v0 && s.clock < s.cache[k].expiresAt
    ensures CanServeOld(ttl, s, |s.calls|, v0)
  {
    var n := |s.calls|;
    var q := s.cache[k].price.origin.q;
    assert CachedOk(ttl, s, k, s.cache[k]);
    var s1 := Apply(ttl, s, Begin(q));
    var s2 := Apply(ttl, s1, Look(n));
    assert s2.calls[n] == Returned(q, s.clock, s.cache[k].price);
    assert ServedOld(s2, n, v0);
    assert Runs(ttl, s2, []) && Final(ttl, s2, []) == s2;
    OneStepBack(ttl, s1, Look(n), n, v0);
    OneStepBack(ttl, s, Begin(q), n, v0);
  }

  lemma ResolvedServes(ttl: int, s: State, i: nat, v0: nat)
    requires ttl > 0 && Inv(ttl, s) && i < |s.calls| && s.calls[i].Resolved?
    requires s.calls[i].price.origin.first < v0 && s.clock < s.calls[i].now + ttl
    ensures CanServeOld(ttl, s, |s.calls|, v0)
  {
    PutInv(ttl, s, i);
    CacheServes(ttl, Stored(ttl, s, i), CacheKey(s.calls[i].q), v0);
    OneStepBack(ttl, s, Put(i), |s.calls|, v0);
  }

  lemma SecondListServes(ttl: int, s: State, i: nat, v0: nat)
    requires ttl > 0 && Inv(ttl, s) && i < |s.calls| && s.calls[i].SecondList?
    requires s.calls[i].first < v0 && s.clock < s.calls[i].now + ttl
    ensures CanServeOld(ttl, s, |s.calls|, v0)
  {
    assert CallOk(ttl, s, s.calls[i]);
    var a := ListCost(i, s.versions[|s.versions| - 1]);
    StepInv(ttl, s, a);
    ResolvedServes(ttl, Apply(ttl, s, a), i, v0);
    OneStepBack(ttl, s, a, |s.calls|, v0);
  }

  lemma InFlightServes(ttl: int, s: State, i: nat, v0: nat)
    requires ttl > 0 && Inv(ttl, s) && i < |s.calls| && HoldsOld(s.calls[i], v0) && s.clock < s.calls[i].now + ttl
    ensures CanServeOld(ttl, s, |s.calls|, v0)
  {
    if s.calls[i].Resolved? {
      ResolvedServes(ttl, s, i, v0);
    } else {
      SecondListServes(ttl, s, i, v0);
    }
  }

  lemma OldCopyServes(ttl: int, s: State, v0: nat)
    requires ttl > 0 && Inv(ttl, s) && OldCopy(ttl, s, v0)
    ensures CanServeOld(ttl, s, |s.calls|, v0)
  {
    if k :| k in s.cache && s.cache[k].price.origin.first < v0 && s.clock < s.cache[k].expiresAt {
      CacheServes(ttl, s, k, v0);
    } else {
      var i :| 0 <= i < |s.calls| && HoldsOld(s.calls[i], v0) && s.clock < s.calls[i].now + ttl;
      InFlightServes(ttl, s, i, v0);
    }
  }

  /** From any reachable state, calls that begin later can return a price read before version v0
      exactly when an old copy is left in the cache or in flight. */
  lemma ServesOldIff(ttl: int, s: State, v0: nat)
    requires ttl > 0 && Reachable(ttl, s) && v0 < |s.versions|
    ensures CanServeOld(ttl, s, |s.calls|, v0) <==> OldCopy(ttl, s, v0)
  {
    ReachableInv(ttl, s);
    if OldCopy(ttl, s, v0) {
      OldCopyServes(ttl, s, v0);
    } else {
      NoOldCopyServesNone(ttl, s, v0);
    }
  }

  lemma NoOldCopyServesNone(ttl: int, s: State, v0: nat)
    requires v0 < |s.versions| && !OldCopy(ttl, s, v0)
    ensures !CanServeOld(ttl, s, |s.calls|, v0)
  {
    forall run: seq<Action> | Runs(ttl, s, run) ensures !ServedOld(Final(ttl, s, run), |s.calls|, v0) {
      OnlyNewRun(ttl, s, run, |s.calls|, v0, s.clock);
    }
  }

  /** InvalidateCache makes every later call see the current version or a newer one exactly when
      no call holding an older listing, not yet expired, is in flight at that moment. The epoch it
      increments plays no part. */
  lemma InvalidateIsEffectiveIff(ttl: int, s: State)
    requires ttl > 0 && Reachable(ttl, s)
    ensures |s.versions| > 0
    ensures var t := Apply(ttl, s, Invalidate);
      CanServeOld(ttl, t, |t.calls|, |s.versions| - 1) <==> InFlight(ttl, s, |s.versions| - 1)
  {
    ReachableInv(ttl, s);
    var t := Apply(ttl, s, Invalidate);
    ReachableStep(ttl, s, Invalidate);
    ServesOldIff(ttl, t, |s.versions| - 1);
  }

  lemma Follow(ttl: int, s: State, a: Action) returns (t: State)
    requires Reachable(ttl, s) && Enabled(s, a)
    ensures t == Apply(ttl, s, a) && Reachable(ttl, t)
  {
    t := Apply(ttl, s, a);
    ReachableStep(ttl, s, a);
  }

  /** A call lists the rules, they are edited, and the cache is invalidated before the call writes: a
      later call is served the price from before the edit. */
  lemma StaleAfterInvalidate(ttl: int, clock: int, q: Query, rules: Rules, edited: Rules) returns (s: State)
    requires ttl > 0 && !FallsBack(rules, q)
    ensures Reachable(ttl, s) && s.versions == [rules, edited] && |s.calls| == 1
    ensures var t := Apply(ttl, s, Invalidate); t.cache == map[] && CanServeOld(ttl, t, 1, 1)
  {
    s := State([rules], [clock], clock, map[], 0, []);
    assert Init(s) && Runs(ttl, s, []) && Final(ttl, s, []) == s;
    s := Follow(ttl, s, Begin(q));
    s := Follow(ttl, s, Look(0));
    assert s.calls == [Missed(q, clock)];
    s := Follow(ttl, s, List(0, rules));
    s := Follow(ttl, s, Edit(edited));
    assert s.calls[0].Resolved? && HoldsOld(s.calls[0], 1);
    InvalidateIsEffectiveIff(ttl, s);
  }

  lemma ReachableStep(ttl: int, s: State, a: Action)
    requires Reachable(ttl, s) && Enabled(s, a)
    ensures Reachable(ttl, Apply(ttl, s, a))
  {
    var s0: State, run: seq<Action> :| Init(s0) && Runs(ttl, s0, run) && Final(ttl, s0, run) == s;
    RunAppend(ttl, s0, run, a);
    assert Runs(ttl, s0, run + [a]);
  }

  lemma {:induction false} RunAppend(ttl: int, s: State, run: seq<Action>, a: Action)
    requires Runs(ttl, s, run) && Enabled(Final(ttl, s, run), a)
    ensures Runs(ttl, s, run + [a]) && Final(ttl, s, run + [a]) == Apply(ttl, Final(ttl, s, run), a)
    decreases |run|
  {
    if run == [] {
      assert run + [a] == [a];
      assert [a][1..] == [];
    } else {
      RunAppend(ttl, Apply(ttl, s, run[0]), run[1..], a);
      assert (run + [a])[1..] == run[1..] + [a];
    }
  }

  // ---- the code ----

  class DefaultPricingService {
    const ttl: int
    var versions: seq<Rules>
    var stamps: seq<int>
    var clock: int
    var cache: map<string, Cached>
    var cacheEpoch: nat
    var calls: seq<Call>

    function View(): State
      reads this
    {
      State(versions, stamps, clock, cache, cacheEpoch, calls)
    }

    constructor (rules: Rules, clock: int, ttl: int)
      ensures Init(View()) && versions == [rules] && this.ttl == ttl
    {
      this.ttl, this.clock := ttl, clock;
      versions, stamps, cache, cacheEpoch, calls := [rules], [clock], map[], 0, [];
    }

    method InvalidateCache()
      modifies this
      ensures View() == Apply(ttl, old(View()), Invalidate)
    {
      cache := map[];
      cacheEpoch := cacheEpoch + 1;
    }

    /** The lookup under the read lock. */
    method LookUp(i: nat)
      requires Enabled(View(), Look(i))
      modifies this`calls
      ensures View() == Apply(ttl, old(View()), Look(i))
    {
      var q, now := calls[i].q, calls[i].now;
      var key := CacheKey(q);
      if key in cache {
        if now < cache[key].expiresAt {
          calls := calls[i := Returned(q, now, cache[key].price)];
          return;
        }
      }
      calls := calls[i := Missed(q, now)];
    }

    /** The first listing of resolveUncached and resolveUncachedByType. */
    method ListRules(i: nat, rules: Rules)
      requires Enabled(View(), List(i, rules))
      modifies this`calls
      ensures View() == Apply(ttl, old(View()), List(i, rules))
    {
      var q, now, v := calls[i].q, calls[i].now, |versions| - 1;
      var origin := Origin(q, v, v, rules, rules, clock);
      if q.kind.None? {
        var hit := MatchPricingRule(rules, q.backend, q.model);
        var info := if hit.Some? then FromRule(hit.value, "") else DefaultPrice("");
        calls := calls[i := Resolved(q, now, Priced(info, origin))];
        return;
      }
      var priceType := q.kind.value;
      var hit := MatchPricingRule(OfType(rules, priceType), q.backend, q.model);
      if hit.Some? {
        calls := calls[i := Resolved(q, now, Priced(FromRule(hit.value, priceType), origin))];
      } else if priceType != COST {
        calls := calls[i := SecondList(q, now, v, rules, clock)];
      } else {
        calls := calls[i := Resolved(q, now, Priced(DefaultPrice(COST), origin))];
      }
    }

    /** The recursive call of resolveUncachedByType with type cost, made only after the first
        listing found nothing; Inv keeps that. */
    method ListCostRules(i: nat, rules: Rules)
      requires Enabled(View(), ListCost(i, rules))
      requires FallsBack(calls[i].list1, calls[i].q)
      modifies this`calls
      ensures View() == Apply(ttl, old(View()), ListCost(i, rules))
    {
      var c, v := calls[i], |versions| - 1;
      var hit := MatchPricingRule(OfType(rules, COST), c.q.backend, c.q.model);
      var info := if hit.Some? then FromRule(hit.value, COST) else DefaultPrice(COST);
      calls := calls[i := Resolved(c.q, c.now, Priced(info, Origin(c.q, c.first, v, c.list1, rules, c.readAt)))];
    }

    /** The write under the lock, and the return. */
    method PutPrice(i: nat)
      requires Enabled(View(), Put(i))
      modifies this
      ensures View() == Apply(ttl, old(View()), Put(i))
    {
      var c := calls[i];
      cache := cache[CacheKey(c.q) := Cached(c.price, c.now + ttl)];
      calls := calls[i := Returned(c.q, c.now, c.price)];
    }
  }
}
