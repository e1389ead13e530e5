/**
 The exact-match cache: a TTL map with lazy expiry, periodic cleanup and oldest-first
 eviction, reloading from a key-value store that goroutines write and delete in any order.
 Times are in nanoseconds. Map iteration order is an input of the operations that iterate.
 */
module ExactCache {
  import opened Basics

  const HUNDRED_YEARS := 100 * 365 * 24 * 3600 * 1_000_000_000

  datatype Entry = Entry(value: string, timestamp: int, expiresAt: int)

  /** `maxSize` <= 0 means no limit; `persistent` says a key-value store is attached. */
  datatype Config = Config(enabled: bool, maxSize: int, persistent: bool)

  /** A goroutine that was started and has not touched the store yet. */
  datatype Task = Persist(key: string, entry: Entry) | Remove(key: string)

  datatype State = State(entries: map<string, Entry>, store: map<string, Entry>, tasks: seq<Task>)

  const EMPTY := State(map[], map[], [])

  /** Whether the store can be read and whether it deletes, during one call. */
  datatype Io = Io(readable: bool, deletes: bool)

  const WORKS := Io(true, true)

  /** One atomic operation with the clock readings it makes, or one move of the environment. */
  datatype Op =
    | Get(key: string, loadNow: int, now: int, io: Io)
    | Set(key: string, value: string, ttl: int, expiryNow: int, stampNow: int, order: seq<string>)
    | Delete(key: string)
    | Clear(flushed: bool)
    | Cleanup(now: int)
    | RunTask(i: nat, ok: bool)  // a goroutine reaches the store, or fails
    | StoreDrops(key: string)    // the store expires or loses an entry

  function EntryOf(op: Op): Entry
    requires op.Set?
  {
    Entry(op.value, op.stampNow, op.expiryNow + if op.ttl == 0 then HUNDRED_YEARS else op.ttl)
  }

  /** `order` visits every key of `m` once. */
  predicate Enumerates(order: seq<string>, m: map<string, Entry>) {
    && (forall i, j :: 0 <= i < j < |order| ==> order[i] != order[j])
    && (forall k :: k in order ==> k in m)
    && (forall k :: k in m ==> k in order)
  }

  predicate Enabled(s: State, op: Op) {
    match op
    case Set(_, _, _, _, _, order) => Enumerates(order, s.entries)
    case RunTask(i, _) => i < |s.tasks|
    case _ => true
  }

  // ---- operations ----

  function Without(m: map<string, Entry>, key: string): map<string, Entry> {
    m - {key}
  }

  /** Reload a missing entry from the store, or drop it there when it is out of date. */
  function Loaded(c: Config, s: State, key: string, loadNow: int, io: Io): State {
    if key in s.entries || !c.persistent || key !in s.store || !io.readable then s
    else if loadNow < s.store[key].expiresAt then s.(entries := s.entries[key := s.store[key]])
    else if io.deletes then s.(store := Without(s.store, key))
    else s
  }

  function GetStep(c: Config, s: State, key: string, loadNow: int, now: int, io: Io): (Option<Entry>, State) {
    if !c.enabled then (None, s)
    else
      var t := Loaded(c, s, key, loadNow, io);
      if key !in t.entries then (None, t)
      else if now > t.entries[key].expiresAt then
        (None, t.(entries := Without(t.entries, key), store := if c.persistent && io.deletes then Without(t.store, key) else t.store))
      else (Some(t.entries[key]), t)
  }

  /** The key evictOldest settles on when it visits the map in this order; "" means none. */
  function Oldest(order: seq<string>, m: map<string, Entry>): string
    requires forall k :: k in order ==> k in m
    ensures Oldest(order, m) != "" ==> Oldest(order, m) in order
  {
    if order == [] then ""
    else
      var n := |order| - 1;
      var best := Oldest(order[..n], m);
      if best == "" || m[order[n]].timestamp < m[best].timestamp then order[n] else best
  }

  function Evicted(order: seq<string>, m: map<string, Entry>): map<string, Entry>
    requires forall k :: k in order ==> k in m
  {
    if Oldest(order, m) == "" then m else Without(m, Oldest(order, m))
  }

  function SetStep(c: Config, s: State, op: Op): State
    requires op.Set? && Enabled(s, op)
  {
    if !c.enabled then s
    else
      var room := if c.maxSize > 0 && |s.entries| >= c.maxSize then Evicted(op.order, s.entries) else s.entries;
      s.(entries := room[op.key := EntryOf(op)],
         tasks := if c.persistent then s.tasks + [Persist(op.key, EntryOf(op))] else s.tasks)
  }

  function Fresh(m: map<string, Entry>, now: int): map<string, Entry> {
    map k | k in m && !(now > m[k].expiresAt) :: m[k]
  }

  function TaskStep(s: State, i: nat, ok: bool): State
    requires i < |s.tasks|
  {
    var rest := s.(tasks := s.tasks[..i] + s.tasks[i + 1..]);
    if !ok then rest
    else match s.tasks[i]
      case Persist(k, e) => rest.(store := s.store[k := e])
      case Remove(k) => rest.(store := Without(s.store, k))
  }

  function Step(c: Config, s: State, op: Op): State
    requires Enabled(s, op)
  {
    match op
    case Get(k, loadNow, now, io) => GetStep(c, s, k, loadNow, now, io).1
    case Set(_, _, _, _, _, _) => SetStep(c, s, op)
    case Delete(k) =>
      s.(entries := Without(s.entries, k), tasks := if c.persistent then s.tasks + [Remove(k)] else s.tasks)
    case Clear(flushed) => s.(entries := map[], store := if c.persistent && flushed then map[] else s.store)
    case Cleanup(now) => s.(entries := Fresh(s.entries, now))
    case RunTask(i, ok) => TaskStep(s, i, ok)
    case StoreDrops(k) => s.(store := Without(s.store, k))
  }

  // ---- runs ----

  predicate Runs(c: Config, s: State, run: seq<Op>)
    decreases |run|, 0
  {
    run == [] || (Runs(c, s, run[..|run| - 1]) && Enabled(After(c, s, run[..|run| - 1]), run[|run| - 1]))
  }

  function After(c: Config, s: State, run: seq<Op>): State
    requires Runs(c, s, run)
    decreases |run|, 1
  {
    if run == [] then s else Step(c, After(c, s, run[..|run| - 1]), run[|run| - 1])
  }

  /** The clock readings of `op` lie between `from` and `to`, in order. */
  predicate Within(op: Op, from: int, to: int) {
    match op
    case Get(_, loadNow, now, _) => from <= loadNow <= now <= to
    case Set(_, _, _, expiryNow, stampNow, _) => from <= expiryNow <= stampNow <= to
    case Cleanup(now) => from <= now <= to
    case _ => from <= to
  }

  /** The clock after `op`, if it was `clock` before. */
  function Clock(op: Op, clock: int): int {
    match op
    case Get(_, _, now, _) => now
    case Set(_, _, _, _, stampNow, _) => stampNow
    case Cleanup(now) => now
    case _ => clock
  }

  function ClockAfter(run: seq<Op>, start: int): int {
    if run == [] then start else Clock(run[|run| - 1], ClockAfter(run[..|run| - 1], start))
  }

  /** The clock never runs backwards over the run. */
  predicate ClockRuns(run: seq<Op>, start: int) {
    run == [] || (ClockRuns(run[..|run| - 1], start)
                  && Within(run[|run| - 1], ClockAfter(run[..|run| - 1], start), ClockAfter(run, start)))
  }

  // ---- what Get returns was set before and has not expired ----

  /** What the Sets of a run stored. */
  ghost function SetsIn(run: seq<Op>): set<(string, Entry)> {
    set i | 0 <= i < |run| && run[i].Set? :: (run[i].key, EntryOf(run[i]))
  }

  ghost predicate AllIn(s: State, log: set<(string, Entry)>) {
    && (forall k :: k in s.entries ==> (k, s.entries[k]) in log)
    && (forall k :: k in s.store ==> (k, s.store[k]) in log)
    && (forall i :: 0 <= i < |s.tasks| && s.tasks[i].Persist? ==> (s.tasks[i].key, s.tasks[i].entry) in log)
  }

  lemma StepAllIn(c: Config, s: State, op: Op, log: set<(string, Entry)>)
    requires AllIn(s, log) && Enabled(s, op) && (op.Set? ==> (op.key, EntryOf(op)) in log)
    ensures AllIn(Step(c, s, op), log)
  {
  }

  lemma {:induction false} RunAllIn(c: Config, run: seq<Op>)
    requires Runs(c, EMPTY, run)
    ensures AllIn(After(c, EMPTY, run), SetsIn(run))
  {
    if run != [] {
      var init, op := run[..|run| - 1], run[|run| - 1];
      RunAllIn(c, init);
      var log := SetsIn(run);
      forall p | p in SetsIn(init) ensures p in log {
        var i :| 0 <= i < |init| && init[i].Set? && p == (init[i].key, EntryOf(init[i]));
        assert run[i] == init[i];
      }
      StepAllIn(c, After(c, EMPTY, init), op, log);
    }
  }

  /** In whatever order the goroutines reach the store, an entry Get returns was passed to an
      earlier Set of the same key and is not past its expiry at the time read. */
  lemma GetReturnsWhatWasSet(c: Config, run: seq<Op>, key: string, loadNow: int, now: int, io: Io)
    requires Runs(c, EMPTY, run)
    ensures var r := GetStep(c, After(c, EMPTY, run), key, loadNow, now, io).0;
      r.Some? ==> now <= r.value.expiresAt
                  && exists i :: 0 <= i < |run| && run[i].Set? && run[i].key == key && EntryOf(run[i]) == r.value
  {
    RunAllIn(c, run);
    var r := GetStep(c, After(c, EMPTY, run), key, loadNow, now, io).0;
    if r.Some? {
      assert (key, r.value) in SetsIn(run);
    }
  }

  // ---- when a deleted key can come back ----

  /** A copy of entry `e` of `key` can still be returned at time `now`: in memory, in the store, or in
      the hands of a goroutine. */
  ghost predicate LiveCopy(s: State, key: string, e: Entry, now: int) {
    || (key in s.entries && s.entries[key] == e && now <= e.expiresAt)
    || (key in s.store && s.store[key] == e && now < e.expiresAt)
    || (Persist(key, e) in s.tasks && now < e.expiresAt)
  }

  predicate NoSet(run: seq<Op>, key: string) {
    forall i :: 0 <= i < |run| && run[i].Set? ==> run[i].key != key
  }

  /** Some continuation without a Set of `key` leads to a Get of it that returns entry `e`. */
  ghost predicate CanReturn(c: Config, s: State, key: string, e: Entry, clock: int) {
    exists run: seq<Op>, now: int ::
      Runs(c, s, run) && NoSet(run, key) && ClockRuns(run, clock) && ClockAfter(run, clock) <= now
      && GetStep(c, After(c, s, run), key, now, now, WORKS).0 == Some(e)
  }

  lemma DeadStaysDeadStep(c: Config, s: State, op: Op, key: string, e: Entry, clock: int)
    requires c.enabled && c.persistent && Enabled(s, op) && !LiveCopy(s, key, e, clock)
    requires op.Set? ==> op.key != key
    requires Within(op, clock, Clock(op, clock))
    ensures !LiveCopy(Step(c, s, op), key, e, Clock(op, clock))
  {
  }

  lemma {:induction false} DeadStaysDead(c: Config, s: State, run: seq<Op>, key: string, e: Entry, clock: int)
    requires c.enabled && c.persistent && Runs(c, s, run) && NoSet(run, key) && ClockRuns(run, clock)
    requires !LiveCopy(s, key, e, clock)
    ensures !LiveCopy(After(c, s, run), key, e, ClockAfter(run, clock))
  {
    if run != [] {
      var init := run[..|run| - 1];
      DeadStaysDead(c, s, init, key, e, clock);
      DeadStaysDeadStep(c, After(c, s, init), run[|run| - 1], key, e, ClockAfter(init, clock));
    }
  }

  lemma OneStep(c: Config, s: State, op: Op, clock: int)
    requires Enabled(s, op) && Within(op, clock, clock) && Clock(op, clock) == clock
    ensures Runs(c, s, [op]) && After(c, s, [op]) == Step(c, s, op)
    ensures ClockRuns([op], clock) && ClockAfter([op], clock) == clock
  {
    var run := [op];
    assert run[..|run| - 1] == [];
    assert Runs(c, s, []) && After(c, s, []) == s;
  }

  lemma TwoSteps(c: Config, s: State, op1: Op, op2: Op, clock: int)
    requires Enabled(s, op1) && Enabled(Step(c, s, op1), op2)
    requires Within(op1, clock, clock) && Clock(op1, clock) == clock
    requires Within(op2, clock, clock) && Clock(op2, clock) == clock
    ensures Runs(c, s, [op1, op2]) && After(c, s, [op1, op2]) == Step(c, Step(c, s, op1), op2)
    ensures ClockRuns([op1, op2], clock) && ClockAfter([op1, op2], clock) == clock
  {
    OneStep(c, s, op1, clock);
    assert [op1, op2][..1] == [op1];
  }

  lemma MemoryCopyReturns(c: Config, s: State, key: string, clock: int)
    requires c.enabled && key in s.entries && clock <= s.entries[key].expiresAt
    ensures CanReturn(c, s, key, s.entries[key], clock)
  {
    var run: seq<Op> := [];
    assert Runs(c, s, run) && After(c, s, run) == s && ClockAfter(run, clock) == clock;
    assert GetStep(c, s, key, clock, clock, WORKS).0 == Some(s.entries[key]);
  }

  /** A Delete drops the copy in memory and leaves the one in the store for now. */
  lemma StoreCopyReturns(c: Config, s: State, key: string, clock: int)
    requires c.enabled && c.persistent && key in s.store && clock < s.store[key].expiresAt
    ensures CanReturn(c, s, key, s.store[key], clock)
  {
    OneStep(c, s, Delete(key), clock);
    assert GetStep(c, After(c, s, [Delete(key)]), key, clock, clock, WORKS).0 == Some(s.store[key]);
    assert NoSet([Delete(key)], key);
  }

  lemma PendingCopyReturns(c: Config, s: State, i: nat, key: string, e: Entry, clock: int)
    requires c.enabled && c.persistent && i < |s.tasks| && s.tasks[i] == Persist(key, e) && clock < e.expiresAt
    ensures CanReturn(c, s, key, e, clock)
  {
    var run := [RunTask(i, true), Delete(key)];
    TwoSteps(c, s, RunTask(i, true), Delete(key), clock);
    assert GetStep(c, After(c, s, run), key, clock, clock, WORKS).0 == Some(e);
    assert NoSet(run, key);
  }

  /** From any state, a Get of `key` can return entry `e` without a new Set exactly when a live copy
      of `e` is left anywhere, a goroutine that has not run yet included. */
  lemma ReturnsIffLiveCopy(c: Config, s: State, key: string, e: Entry, clock: int)
    requires c.enabled && c.persistent
    ensures CanReturn(c, s, key, e, clock) <==> LiveCopy(s, key, e, clock)
  {
    if key in s.entries && s.entries[key] == e && clock <= e.expiresAt {
      MemoryCopyReturns(c, s, key, clock);
    } else if key in s.store && s.store[key] == e && clock < e.expiresAt {
      StoreCopyReturns(c, s, key, clock);
    } else if Persist(key, e) in s.tasks && clock < e.expiresAt {
      var i :| 0 <= i < |s.tasks| && s.tasks[i] == Persist(key, e);
      PendingCopyReturns(c, s, i, key, e, clock);
    } else if CanReturn(c, s, key, e, clock) {
      DeadIsNotReturned(c, s, key, e, clock);
    }
  }

  lemma DeadIsNotReturned(c: Config, s: State, key: string, e: Entry, clock: int)
    requires c.enabled && c.persistent && !LiveCopy(s, key, e, clock)
    ensures !CanReturn(c, s, key, e, clock)
  {
    forall run: seq<Op>, now: int |
      Runs(c, s, run) && NoSet(run, key) && ClockRuns(run, clock) && ClockAfter(run, clock) <= now
      ensures GetStep(c, After(c, s, run), key, now, now, WORKS).0 != Some(e)
    {
      DeadStaysDead(c, s, run, key, e, clock);
    }
  }

  /** Delete alone does not keep a key away: an entry can come back exactly when the store or a pending
      goroutine still has a live copy of it at that moment. */
  lemma DeletedKeyReturnsIff(c: Config, s: State, key: string, e: Entry, clock: int)
    requires c.enabled && c.persistent
    ensures CanReturn(c, Step(c, s, Delete(key)), key, e, clock)
      <==> clock < e.expiresAt && ((key in s.store && s.store[key] == e) || Persist(key, e) in s.tasks)
  {
    var t := Step(c, s, Delete(key));
    ReturnsIffLiveCopy(c, t, key, e, clock);
    assert Persist(key, e) in t.tasks <==> Persist(key, e) in s.tasks;
  }

  /** A Get after a Set can return another entry than the one just set exactly when a live copy of that
      other entry is left in the store or with a pending goroutine. */
  lemma OtherEntryReturnsIff(c: Config, s: State, op: Op, e: Entry, clock: int)
    requires c.enabled && c.persistent && op.Set? && Enabled(s, op) && e != EntryOf(op)
    ensures CanReturn(c, Step(c, s, op), op.key, e, clock)
      <==> clock < e.expiresAt && ((op.key in s.store && s.store[op.key] == e) || Persist(op.key, e) in s.tasks)
  {
    ReturnsIffLiveCopy(c, Step(c, s, op), op.key, e, clock);
  }

  /** The same for Clear, whose flush of the store may fail; goroutines already started are not stopped. */
  lemma ClearedKeyReturnsIff(c: Config, s: State, flushed: bool, key: string, e: Entry, clock: int)
    requires c.enabled && c.persistent
    ensures CanReturn(c, Step(c, s, Clear(flushed)), key, e, clock)
      <==> clock < e.expiresAt && ((!flushed && key in s.store && s.store[key] == e) || Persist(key, e) in s.tasks)
  {
    ReturnsIffLiveCopy(c, Step(c, s, Clear(flushed)), key, e, clock);
  }

  // ---- a Delete whose goroutine ran ----

  predicate AllSucceed(run: seq<Op>) {
    forall i :: 0 <= i < |run| && run[i].RunTask? ==> run[i].ok
  }

  /** Nothing will be persisted for `key`, and what the store has of it will be removed. */
  predicate BeingDeleted(s: State, key: string) {
    && (forall i :: 0 <= i < |s.tasks| && s.tasks[i].Persist? ==> s.tasks[i].key != key)
    && (key in s.store ==> Remove(key) in s.tasks)
  }

  lemma OtherTasksStay(tasks: seq<Task>, i: nat, t: Task)
    requires i < |tasks| && t in tasks && tasks[i] != t
    ensures t in tasks[..i] + tasks[i + 1..]
  {
    var j :| 0 <= j < |tasks| && tasks[j] == t;
    if j < i {
      assert (tasks[..i] + tasks[i + 1..])[j] == t;
    } else {
      assert (tasks[..i] + tasks[i + 1..])[j - 1] == t;
    }
  }

  lemma BeingDeletedTask(s: State, i: nat, key: string)
    requires i < |s.tasks| && BeingDeleted(s, key)
    ensures BeingDeleted(TaskStep(s, i, true), key)
  {
    if key in s.store && s.tasks[i] != Remove(key) {
      OtherTasksStay(s.tasks, i, Remove(key));
    }
  }

  lemma BeingDeletedStep(c: Config, s: State, op: Op, key: string)
    requires Enabled(s, op) && BeingDeleted(s, key) && (op.Set? ==> op.key != key) && (op.RunTask? ==> op.ok)
    ensures BeingDeleted(Step(c, s, op), key)
  {
    if op.RunTask? {
      BeingDeletedTask(s, op.i, key);
    }
  }

  lemma {:induction false} BeingDeletedRun(c: Config, s: State, run: seq<Op>, key: string)
    requires Runs(c, s, run) && BeingDeleted(s, key) && NoSet(run, key) && AllSucceed(run)
    ensures BeingDeleted(After(c, s, run), key)
  {
    if run != [] {
      BeingDeletedRun(c, s, run[..|run| - 1], key);
      BeingDeletedStep(c, After(c, s, run[..|run| - 1]), run[|run| - 1], key);
    }
  }

  /** A Delete reaches the store: once all goroutines have run and succeeded, only a copy that a Get
      has reloaded into memory meanwhile can still be returned. */
  lemma {:induction false} DeleteReachesStore(c: Config, s: State, key: string, run: seq<Op>, e: Entry, clock: int)
    requires c.enabled && c.persistent && s.tasks == []
    requires var t := Step(c, s, Delete(key));
      Runs(c, t, run) && NoSet(run, key) && AllSucceed(run) && After(c, t, run).tasks == []
    ensures var u := After(c, Step(c, s, Delete(key)), run);
      && key !in u.store
      && (CanReturn(c, u, key, e, clock) <==> key in u.entries && u.entries[key] == e && clock <= e.expiresAt)
  {
    var t := Step(c, s, Delete(key));
    assert t.tasks == [Remove(key)];
    BeingDeletedRun(c, t, run, key);
    ReturnsIffLiveCopy(c, After(c, t, run), key, e, clock);
  }

  /** Every Get of `key` in the run returned nothing. */
  predicate NeverFound(c: Config, s: State, run: seq<Op>, key: string)
    requires Runs(c, s, run)
  {
    run == []
    || (NeverFound(c, s, run[..|run| - 1], key)
        && var op := run[|run| - 1];
           op.Get? && op.key == key ==>
             GetStep(c, After(c, s, run[..|run| - 1]), key, op.loadNow, op.now, op.io).0.None?)
  }

  lemma AbsentStep(c: Config, s: State, op: Op, key: string)
    requires c.enabled && Enabled(s, op) && key !in s.entries && (op.Set? ==> op.key != key)
    requires op.Get? && op.key == key ==> GetStep(c, s, key, op.loadNow, op.now, op.io).0.None?
    ensures key !in Step(c, s, op).entries
  {
  }

  lemma {:induction false} AbsentRun(c: Config, s: State, run: seq<Op>, key: string)
    requires c.enabled && Runs(c, s, run) && key !in s.entries && NoSet(run, key) && NeverFound(c, s, run, key)
    ensures key !in After(c, s, run).entries
  {
    if run != [] {
      AbsentRun(c, s, run[..|run| - 1], key);
      AbsentStep(c, After(c, s, run[..|run| - 1]), run[|run| - 1], key);
    }
  }

  /** So when no Get found the key before its goroutine ran, the Delete is final. */
  lemma {:induction false} DeleteIsFinal(c: Config, s: State, key: string, run: seq<Op>, e: Entry, clock: int)
    requires c.enabled && c.persistent && s.tasks == []
    requires var t := Step(c, s, Delete(key));
      && Runs(c, t, run) && NoSet(run, key) && AllSucceed(run) && NeverFound(c, t, run, key)
      && After(c, t, run).tasks == []
    ensures !CanReturn(c, After(c, Step(c, s, Delete(key)), run), key, e, clock)
  {
    DeleteReachesStore(c, s, key, run, e, clock);
    AbsentRun(c, Step(c, s, Delete(key)), run, key);
  }

  /** The deleting goroutine itself makes the key unreadable exactly when no live copy is in memory at
      that moment, provided that no other goroutine will persist one. */
  lemma RemoveIsFinalIff(c: Config, s: State, i: nat, key: string, clock: int)
    requires c.enabled && c.persistent && i < |s.tasks| && s.tasks[i] == Remove(key)
    requires forall j :: 0 <= j < |s.tasks| && s.tasks[j].Persist? ==> s.tasks[j].key != key
    ensures (forall e :: !CanReturn(c, TaskStep(s, i, true), key, e, clock))
      <==> !(key in s.entries && clock <= s.entries[key].expiresAt)
  {
    var t := TaskStep(s, i, true);
    forall e ensures CanReturn(c, t, key, e, clock) <==> key in s.entries && s.entries[key] == e && clock <= e.expiresAt {
      ReturnsIffLiveCopy(c, t, key, e, clock);
    }
    if key in s.entries && clock <= s.entries[key].expiresAt {
      assert CanReturn(c, t, key, s.entries[key], clock);
    }
  }

  // ---- what one call does ----

  /** A Set is read back by a Get exactly until its time to live is over; 0 stands for a hundred years. */
  lemma SetIsReadBackIff(c: Config, s: State, op: Op, loadNow: int, now: int, io: Io)
    requires c.enabled && op.Set? && Enabled(s, op)
    ensures var lifetime := if op.ttl == 0 then HUNDRED_YEARS else op.ttl;
      GetStep(c, SetStep(c, s, op), op.key, loadNow, now, io).0
      == if now <= op.expiryNow + lifetime then Some(Entry(op.value, op.stampNow, op.expiryNow + lifetime)) else None
  {
  }

  /** A Set with a store starts a goroutine; once it ran the store has the entry. */
  lemma SetReachesStore(c: Config, s: State, op: Op)
    requires c.enabled && c.persistent && op.Set? && Enabled(s, op)
    ensures var t := SetStep(c, s, op);
      && |t.tasks| == |s.tasks| + 1
      && op.key in TaskStep(t, |s.tasks|, true).store && TaskStep(t, |s.tasks|, true).store[op.key] == EntryOf(op)
      && TaskStep(t, |s.tasks|, false).store == s.store
  {
  }

  /** A Get that finds nothing leaves nothing of the key behind, neither in memory nor, if it can be
      read and written, in the store. */
  lemma MissForgets(c: Config, s: State, key: string, loadNow: int, now: int)
    requires c.enabled && GetStep(c, s, key, loadNow, now, WORKS).0.None?
    ensures var t := GetStep(c, s, key, loadNow, now, WORKS).1;
      key !in t.entries && (c.persistent ==> key !in t.store)
  {
  }

  predicate Empty(s: State) {
    s.entries == map[] && s.store == map[] && forall i :: 0 <= i < |s.tasks| ==> s.tasks[i].Remove?
  }

  lemma WithoutNothing(key: string)
    ensures Without(map[], key) == map[]
  {
  }

  lemma EmptyStep(c: Config, s: State, op: Op)
    requires !c.enabled && Enabled(s, op) && Empty(s)
    ensures Empty(Step(c, s, op))
  {
    match op
    case Delete(k) => WithoutNothing(k);
    case StoreDrops(k) => WithoutNothing(k);
    case RunTask(i, _) => WithoutNothing(s.tasks[i].key);
    case _ =>
  }

  /** A disabled cache stores and returns nothing. */
  lemma {:induction false} DisabledStaysEmpty(c: Config, run: seq<Op>, key: string, loadNow: int, now: int, io: Io)
    requires !c.enabled && Runs(c, EMPTY, run)
    ensures Empty(After(c, EMPTY, run))
    ensures GetStep(c, After(c, EMPTY, run), key, loadNow, now, io).0.None?
  {
    if run != [] {
      DisabledStaysEmpty(c, run[..|run| - 1], key, loadNow, now, io);
      EmptyStep(c, After(c, EMPTY, run[..|run| - 1]), run[|run| - 1]);
    }
  }

  // ---- without a store and a size limit: a plain TTL map ----

  /** The reference: a map that is only changed by Set, Delete and Clear. */
  function TtlStep(m: map<string, Entry>, op: Op): map<string, Entry> {
    match op
    case Set(k, _, _, _, _, _) => m[k := EntryOf(op)]
    case Delete(k) => Without(m, k)
    case Clear(_) => map[]
    case _ => m
  }

  function TtlMap(run: seq<Op>): map<string, Entry> {
    if run == [] then map[] else TtlStep(TtlMap(run[..|run| - 1]), run[|run| - 1])
  }

  function TtlGet(m: map<string, Entry>, key: string, now: int): Option<Entry> {
    if key in m && now <= m[key].expiresAt then Some(m[key]) else None
  }

  predicate PlainConfig(c: Config) {
    c.enabled && c.maxSize <= 0 && !c.persistent
  }

  /** `m` without some entries that have expired. */
  ghost predicate Purged(m: map<string, Entry>, entries: map<string, Entry>, clock: int) {
    && (forall k :: k in entries ==> k in m && entries[k] == m[k])
    && (forall k :: k in m && k !in entries ==> m[k].expiresAt < clock)
  }

  lemma {:induction false} RunIsPurged(c: Config, run: seq<Op>, start: int)
    requires PlainConfig(c) && Runs(c, EMPTY, run) && ClockRuns(run, start)
    ensures Purged(TtlMap(run), After(c, EMPTY, run).entries, ClockAfter(run, start))
  {
    if run != [] {
      RunIsPurged(c, run[..|run| - 1], start);
    }
  }

  /** After every run each Get answers like the TTL map, whatever lazy expiry and cleanup removed. */
  lemma {:induction false} CacheRefinesTtlMap(c: Config, run: seq<Op>, start: int, key: string, loadNow: int, now: int, io: Io)
    requires PlainConfig(c) && Runs(c, EMPTY, run) && ClockRuns(run, start) && ClockAfter(run, start) <= loadNow <= now
    ensures GetStep(c, After(c, EMPTY, run), key, loadNow, now, io).0 == TtlGet(TtlMap(run), key, now)
  {
    RunIsPurged(c, run, start);
  }

  /** The run without its cleanups and reads. */
  function Writes(run: seq<Op>): seq<Op> {
    if run == [] then []
    else if IsWrite(run[|run| - 1]) then Writes(run[..|run| - 1]) + [run[|run| - 1]]
    else Writes(run[..|run| - 1])
  }

  predicate IsWrite(op: Op) {
    op.Set? || op.Delete? || op.Clear?
  }

  lemma TtlMapAppend(run: seq<Op>, op: Op)
    ensures TtlMap(run + [op]) == TtlStep(TtlMap(run), op)
  {
    assert (run + [op])[..|run|] == run;
  }

  lemma {:induction false} TtlMapOfWrites(run: seq<Op>)
    ensures TtlMap(Writes(run)) == TtlMap(run)
  {
    if run != [] {
      var init, op := run[..|run| - 1], run[|run| - 1];
      TtlMapOfWrites(init);
      TtlMapAppend(init, op);
      assert init + [op] == run;
      if IsWrite(op) {
        TtlMapAppend(Writes(init), op);
      }
    }
  }

  /** Cleanups and earlier reads placed anywhere change no later result. */
  lemma {:induction false} CleanupChangesNoResult(c: Config, run1: seq<Op>, run2: seq<Op>, start: int, key: string, now: int, io1: Io, io2: Io)
    requires PlainConfig(c) && Writes(run1) == Writes(run2)
    requires Runs(c, EMPTY, run1) && ClockRuns(run1, start) && ClockAfter(run1, start) <= now
    requires Runs(c, EMPTY, run2) && ClockRuns(run2, start) && ClockAfter(run2, start) <= now
    ensures GetStep(c, After(c, EMPTY, run1), key, now, now, io1).0 == GetStep(c, After(c, EMPTY, run2), key, now, now, io2).0
  {
    TtlMapOfWrites(run1);
    TtlMapOfWrites(run2);
    CacheRefinesTtlMap(c, run1, start, key, now, now, io1);
    CacheRefinesTtlMap(c, run2, start, key, now, now, io2);
  }

  /** A cleanup leaves exactly the entries of the TTL map that have not expired. */
  lemma {:induction false} CleanupIsExact(c: Config, run: seq<Op>, start: int, now: int, key: string)
    requires PlainConfig(c) && Runs(c, EMPTY, run) && ClockRuns(run, start) && ClockAfter(run, start) <= now
    ensures var kept := Step(c, After(c, EMPTY, run), Cleanup(now)).entries;
      TtlGet(TtlMap(run), key, now) == if key in kept then Some(kept[key]) else None
  {
    RunIsPurged(c, run, start);
  }

  // ---- the size limit ----

  lemma {:induction false} OldestIsOldest(order: seq<string>, m: map<string, Entry>)
    requires forall k :: k in order ==> k in m
    requires "" !in order
    ensures order != [] ==> Oldest(order, m) != ""
    ensures forall k :: k in order ==> m[Oldest(order, m)].timestamp <= m[k].timestamp
  {
    if order != [] {
      var n := |order| - 1;
      OldestIsOldest(order[..n], m);
      assert order == order[..n] + [order[n]];
    }
  }

  predicate StrictlyOldest(key: string, m: map<string, Entry>) {
    key in m && forall k :: k in m && k != key ==> m[key].timestamp < m[k].timestamp
  }

  /** The empty key is chosen only when it comes last and everything before it is younger. */
  lemma {:induction false} EmptyKeyLast(order: seq<string>, m: map<string, Entry>)
    requires Enumerates(order, m) && order != [] && order[|order| - 1] == ""
    ensures Oldest(order, m) == "" <==> StrictlyOldest("", m)
  {
    var init := order[..|order| - 1];
    assert order == init + [""];
    assert "" !in init;
    OldestIsOldest(init, m);
    assert forall k :: k in m && k != "" ==> k in init;
    if init != [] {
      assert Oldest(init, m) in init;
    } else {
      assert Oldest(init, m) == "";
    }
  }

  /** An eviction removes nothing exactly when the cache is empty, or the empty key is visited last
      and is strictly older than every other entry. */
  lemma {:induction false} EvictsNothingIff(order: seq<string>, m: map<string, Entry>)
    requires Enumerates(order, m)
    ensures Oldest(order, m) == "" <==> order == [] || (order[|order| - 1] == "" && StrictlyOldest("", m))
  {
    if order != [] && order[|order| - 1] == "" {
      EmptyKeyLast(order, m);
    }
  }

  lemma EnumerationLength(order: seq<string>, m: map<string, Entry>)
    requires Enumerates(order, m)
    ensures |order| == |m|
  {
    var keys := set k | k in order;
    assert keys == m.Keys;
    DistinctLength(order);
    assert |m| == |m.Keys|;
  }

  lemma {:induction false} DistinctLength(order: seq<string>)
    requires forall i, j :: 0 <= i < j < |order| ==> order[i] != order[j]
    ensures |set k | k in order| == |order|
  {
    if order != [] {
      var n := |order| - 1;
      DistinctLength(order[..n]);
      assert (set k | k in order) == (set k | k in order[..n]) + {order[n]};
    }
  }

  lemma EvictedSize(order: seq<string>, m: map<string, Entry>)
    requires Enumerates(order, m)
    ensures |Evicted(order, m)| == if Oldest(order, m) == "" then |m| else |m| - 1
  {
    var k := Oldest(order, m);
    if k != "" {
      assert Without(m, k).Keys == m.Keys - {k};
      assert |Without(m, k)| == |Without(m, k).Keys| && |m| == |m.Keys|;
    }
  }

  lemma InsertedSize(m: map<string, Entry>, k: string, e: Entry)
    ensures |m[k := e]| == if k in m then |m| else |m| + 1
  {
    assert m[k := e].Keys == m.Keys + {k};
    assert |m[k := e]| == |m[k := e].Keys| && |m| == |m.Keys|;
  }

  /** The one way a Set lets a limited cache grow: it is full, the key is new, and the empty key,
      strictly older than every other entry, is visited last. */
  predicate Overflows(c: Config, s: State, op: Op)
    requires op.Set?
  {
    CanOverflow(c, s, op.key) && op.order != [] && op.order[|op.order| - 1] == ""
  }

  predicate CanOverflow(c: Config, s: State, key: string) {
    |s.entries| >= c.maxSize && key !in s.entries && StrictlyOldest("", s.entries)
  }

  /** The one way a Get does: the cache is full, and the key is reloaded and still live. */
  predicate Reloads(c: Config, s: State, op: Op)
    requires op.Get?
  {
    && |s.entries| >= c.maxSize && c.persistent && op.io.readable
    && op.key !in s.entries && op.key in s.store
    && op.loadNow < s.store[op.key].expiresAt && op.now <= s.store[op.key].expiresAt
  }

  function Larger(a: int, b: int): int {
    if a > b then a else b
  }

  /** Some entry makes room for the new one. */
  predicate MakesRoom(c: Config, s: State, op: Op)
    requires op.Set? && Enabled(s, op)
  {
    |s.entries| >= c.maxSize && Oldest(op.order, s.entries) != ""
  }

  lemma SetSize(c: Config, s: State, op: Op)
    requires c.enabled && c.maxSize > 0 && op.Set? && Enabled(s, op)
    ensures |SetStep(c, s, op).entries| <= |s.entries| + if MakesRoom(c, s, op) || op.key in s.entries then 0 else 1
    ensures !MakesRoom(c, s, op) && op.key !in s.entries ==> |SetStep(c, s, op).entries| == |s.entries| + 1
  {
    if MakesRoom(c, s, op) {
      EvictedSize(op.order, s.entries);
      InsertedSize(Evicted(op.order, s.entries), op.key, EntryOf(op));
    } else {
      InsertedSize(s.entries, op.key, EntryOf(op));
    }
  }

  /** A Set keeps the size within the limit, or within an excess it finds, exactly when it does not
      overflow; otherwise it adds one. */
  lemma {:induction false} SetKeepsLimitIff(c: Config, s: State, op: Op)
    requires c.enabled && c.maxSize > 0 && op.Set? && Enabled(s, op)
    ensures |SetStep(c, s, op).entries| <= Larger(|s.entries|, c.maxSize) <==> !Overflows(c, s, op)
    ensures Overflows(c, s, op) ==> |SetStep(c, s, op).entries| == |s.entries| + 1
  {
    EnumerationLength(op.order, s.entries);
    EvictsNothingIff(op.order, s.entries);
    SetSize(c, s, op);
  }

  /** Overwriting a key of a full cache evicts another entry, although no room is needed, unless the key
      itself is the one the scan finds. */
  lemma OverwriteShrinksIff(c: Config, s: State, op: Op)
    requires c.enabled && c.maxSize > 0 && op.Set? && Enabled(s, op) && op.key in s.entries
    ensures |SetStep(c, s, op).entries| < |s.entries|
      <==> |s.entries| >= c.maxSize && Oldest(op.order, s.entries) != "" && Oldest(op.order, s.entries) != op.key
    ensures Oldest(op.order, s.entries) != op.key && Oldest(op.order, s.entries) != "" && |s.entries| >= c.maxSize ==>
      Oldest(op.order, s.entries) !in SetStep(c, s, op).entries
  {
    if MakesRoom(c, s, op) {
      EvictedSize(op.order, s.entries);
      InsertedSize(Evicted(op.order, s.entries), op.key, EntryOf(op));
    } else {
      InsertedSize(s.entries, op.key, EntryOf(op));
    }
  }

  lemma WithoutSize(m: map<string, Entry>, k: string)
    requires k in m
    ensures |Without(m, k)| == |m| - 1
  {
    assert Without(m, k).Keys == m.Keys - {k};
    assert |Without(m, k)| == |Without(m, k).Keys| && |m| == |m.Keys|;
  }

  /** Every map can be visited in an order that ends with a given key. */
  lemma SomeOrder(m: map<string, Entry>, last: string) returns (order: seq<string>)
    requires last in m
    ensures Enumerates(order, m) && order != [] && order[|order| - 1] == last
    decreases |m|
  {
    var rest := Without(m, last);
    WithoutSize(m, last);
    if rest == map[] {
      order := [last];
    } else {
      var k :| k in rest;
      order := SomeOrder(rest, k);
      order := order + [last];
    }
  }

  /** Whatever order the map is visited in, a Set keeps the limit, exactly when it is not the case
      that the cache is full, the key new and the empty key strictly oldest. */
  lemma {:induction false} EveryOrderKeepsLimitIff(c: Config, s: State, op: Op)
    requires c.enabled && c.maxSize > 0 && op.Set?
    ensures (forall order :: Enumerates(order, s.entries) ==>
               |SetStep(c, s, op.(order := order)).entries| <= Larger(|s.entries|, c.maxSize))
      <==> !CanOverflow(c, s, op.key)
  {
    forall order | Enumerates(order, s.entries)
      ensures |SetStep(c, s, op.(order := order)).entries| <= Larger(|s.entries|, c.maxSize)
        <==> !Overflows(c, s, op.(order := order))
    {
      SetKeepsLimitIff(c, s, op.(order := order));
    }
    if CanOverflow(c, s, op.key) {
      var order := SomeOrder(s.entries, "");
      assert Overflows(c, s, op.(order := order));
    }
  }

  /** A Get keeps it exactly when it does not reload a live entry into a full cache. */
  lemma GetKeepsLimitIff(c: Config, s: State, op: Op)
    requires c.enabled && c.maxSize > 0 && op.Get?
    ensures |Step(c, s, op).entries| <= Larger(|s.entries|, c.maxSize) <==> !Reloads(c, s, op)
    ensures Reloads(c, s, op) ==> |Step(c, s, op).entries| == |s.entries| + 1
  {
    var t := Loaded(c, s, op.key, op.loadNow, op.io);
    if op.key in t.entries {
      WithoutSize(t.entries, op.key);
    }
    if t.entries != s.entries {
      InsertedSize(s.entries, op.key, s.store[op.key]);
    }
  }

  lemma FewerKeys(m: map<string, Entry>, n: map<string, Entry>)
    requires m.Keys <= n.Keys
    ensures |m| <= |n|
  {
    var extra := n.Keys - m.Keys;
    assert n.Keys == m.Keys + extra;
    assert |m| == |m.Keys| && |n| == |n.Keys|;
  }

  /** The step lets the cache grow past its limit. */
  predicate Overfills(c: Config, s: State, op: Op) {
    if op.Set? then Overflows(c, s, op) else op.Get? && Reloads(c, s, op)
  }

  lemma StepKeepsLimitIff(c: Config, s: State, op: Op)
    requires c.enabled && c.maxSize > 0 && Enabled(s, op)
    ensures |Step(c, s, op).entries| <= Larger(|s.entries|, c.maxSize) <==> !Overfills(c, s, op)
    ensures Overfills(c, s, op) ==> |Step(c, s, op).entries| == |s.entries| + 1 > c.maxSize
  {
    if op.Set? {
      SetKeepsLimitIff(c, s, op);
    } else if op.Get? {
      GetKeepsLimitIff(c, s, op);
    } else {
      FewerKeys(Step(c, s, op).entries, s.entries);
    }
  }

  /** How often that happens in a run. */
  function Excess(c: Config, run: seq<Op>): nat
    requires Runs(c, EMPTY, run)
  {
    if run == [] then 0
    else
      var init := run[..|run| - 1];
      Excess(c, init) + if Overfills(c, After(c, EMPTY, init), run[|run| - 1]) then 1 else 0
  }

  /** The size at every point of a run. */
  predicate AlwaysWithin(c: Config, run: seq<Op>, size: int)
    requires Runs(c, EMPTY, run)
  {
    |After(c, EMPTY, run).entries| <= size && (run != [] ==> AlwaysWithin(c, run[..|run| - 1], size))
  }

  /** With a store too, the limit is exceeded by no more than the overfilling steps. */
  lemma {:induction false} SizeIsBounded(c: Config, run: seq<Op>)
    requires c.enabled && c.maxSize > 0 && Runs(c, EMPTY, run)
    ensures |After(c, EMPTY, run).entries| <= c.maxSize + Excess(c, run)
  {
    if run != [] {
      var init := run[..|run| - 1];
      SizeIsBounded(c, init);
      StepKeepsLimitIff(c, After(c, EMPTY, init), run[|run| - 1]);
    }
  }

  /** The limit holds throughout a run exactly when no step overfills. */
  lemma {:induction false} LimitHoldsIff(c: Config, run: seq<Op>)
    requires c.enabled && c.maxSize > 0 && Runs(c, EMPTY, run)
    ensures AlwaysWithin(c, run, c.maxSize) <==> Excess(c, run) == 0
  {
    if run != [] {
      var init := run[..|run| - 1];
      LimitHoldsIff(c, init);
      StepKeepsLimitIff(c, After(c, EMPTY, init), run[|run| - 1]);
    }
  }

  /** Without a store, a cache that never sees the empty key never exceeds its limit. */
  lemma {:induction false} SizeStaysInLimit(c: Config, run: seq<Op>)
    requires c.enabled && c.maxSize > 0 && !c.persistent && Runs(c, EMPTY, run) && NoSet(run, "")
    ensures |After(c, EMPTY, run).entries| <= c.maxSize && "" !in After(c, EMPTY, run).entries
  {
    if run != [] {
      SizeStaysInLimit(c, run[..|run| - 1]);
      StepKeepsLimitIff(c, After(c, EMPTY, run[..|run| - 1]), run[|run| - 1]);
    }
  }

  /** One more step at time `now`. */
  lemma Extend(c: Config, run: seq<Op>, op: Op, now: int) returns (longer: seq<Op>)
    requires Runs(c, EMPTY, run) && Enabled(After(c, EMPTY, run), op)
    requires ClockRuns(run, now) && ClockAfter(run, now) == now && Within(op, now, now) && Clock(op, now) == now
    ensures longer == run + [op] && Runs(c, EMPTY, longer)
    ensures After(c, EMPTY, longer) == Step(c, After(c, EMPTY, run), op)
    ensures ClockRuns(longer, now) && ClockAfter(longer, now) == now
  {
    longer := run + [op];
    assert longer[..|run|] == run;
  }

  function Permanent(value: string, now: int): Entry {
    Entry(value, now, now + HUNDRED_YEARS)
  }

  function SetForever(key: string, value: string, now: int, order: seq<string>): Op {
    Set(key, value, 0, now, now, order)
  }

  lemma PersistedAlone(c: Config, a: string, value: string, now: int) returns (run: seq<Op>)
    requires c == Config(true, 1, true) && a != ""
    ensures Runs(c, EMPTY, run) && NoSet(run, "") && ClockRuns(run, now) && ClockAfter(run, now) == now
    ensures var e := Permanent(value, now); After(c, EMPTY, run) == State(map[a := e], map[a := e], [])
  {
    SetAlone(c, a, value, now);
    run := Extend(c, [], SetForever(a, value, now, []), now);
    PersistLast(c, After(c, EMPTY, run), a, Permanent(value, now));
    run := Extend(c, run, RunTask(0, true), now);
  }

  lemma SetAlone(c: Config, a: string, value: string, now: int)
    requires c == Config(true, 1, true)
    ensures Enabled(EMPTY, SetForever(a, value, now, []))
    ensures var e := Permanent(value, now);
      Step(c, EMPTY, SetForever(a, value, now, [])) == State(map[a := e], map[], [Persist(a, e)])
  {
  }

  /** With a store the limit fails without the empty key: the evicted entry of a cache for one is
      reloaded beside its successor. */
  lemma ReloadOverflows(a: string, b: string, value: string, now: int) returns (run: seq<Op>)
    requires a != "" && b != "" && a != b
    ensures Runs(Config(true, 1, true), EMPTY, run) && NoSet(run, "") && ClockRuns(run, now)
    ensures |After(Config(true, 1, true), EMPTY, run).entries| == 2
  {
    var c, e := Config(true, 1, true), Permanent(value, now);
    run := PersistedAlone(c, a, value, now);
    SetFull(c, After(c, EMPTY, run), a, b, e, value, now);
    run := Extend(c, run, SetForever(b, value, now, [a]), now);
    var s, get := After(c, EMPTY, run), Get(a, now, now, WORKS);
    GetKeepsLimitIff(c, s, get);
    run := Extend(c, run, get, now);
  }

  /** A deleted key comes back: set, persisted, deleted, and read before the delete reaches the store. */
  lemma DeletedKeyComesBack(key: string, value: string, now: int) returns (run: seq<Op>)
    requires key != ""
    ensures var c := Config(true, 1, true);
      && Runs(c, EMPTY, run) && run != [] && run[|run| - 1] == Delete(key)
      && GetStep(c, After(c, EMPTY, run), key, now, now, WORKS).0 == Some(Permanent(value, now))
  {
    var c := Config(true, 1, true);
    run := PersistedAlone(c, key, value, now);
    run := Extend(c, run, Delete(key), now);
  }

  /** A Get between the Delete and its goroutine reloads the key into memory, and the goroutine does
      not reach it there: all have run and succeeded, and the entry is still returned. */
  lemma ReloadUndoesDelete(key: string, value: string, now: int) returns (start: seq<Op>, run: seq<Op>)
    requires key != ""
    ensures var c := Config(true, 1, true);
      && run == start + [Delete(key)] + [Get(key, now, now, WORKS)] + [RunTask(0, true)] && Runs(c, EMPTY, run)
      && After(c, EMPTY, run).tasks == [] && key !in After(c, EMPTY, run).store
      && GetStep(c, After(c, EMPTY, run), key, now, now, WORKS).0 == Some(Permanent(value, now))
  {
    var c, e := Config(true, 1, true), Permanent(value, now);
    start := PersistedAlone(c, key, value, now);
    DeleteAndReload(c, key, e, now);
    run := Extend(c, start, Delete(key), now);
    run := Extend(c, run, Get(key, now, now, WORKS), now);
    run := Extend(c, run, RunTask(0, true), now);
  }

  lemma DeleteAndReload(c: Config, key: string, e: Entry, now: int)
    requires c == Config(true, 1, true) && now < e.expiresAt
    ensures var s1 := Step(c, State(map[key := e], map[key := e], []), Delete(key));
      && s1 == State(map[], map[key := e], [Remove(key)])
      && var s2 := Step(c, s1, Get(key, now, now, WORKS));
      && s2 == State(map[key := e], map[key := e], [Remove(key)])
      && Step(c, s2, RunTask(0, true)) == State(map[key := e], map[], [])
  {
    assert Without(map[key := e], key) == map[];
    assert [Remove(key)][..0] + [Remove(key)][1..] == [];
  }

  lemma SetTwice(c: Config, key: string, older: string, newer: string, now: int) returns (run: seq<Op>)
    requires c == Config(true, 1, true) && key != ""
    ensures run == [SetForever(key, older, now, []), SetForever(key, newer, now, [key])]
    ensures Runs(c, EMPTY, run) && ClockRuns(run, now) && ClockAfter(run, now) == now
    ensures var (e1, e2) := (Permanent(older, now), Permanent(newer, now));
      After(c, EMPTY, run) == State(map[key := e2], map[], [Persist(key, e1), Persist(key, e2)])
  {
    var e1 := Permanent(older, now);
    SetAlone(c, key, older, now);
    run := Extend(c, [], SetForever(key, older, now, []), now);
    SetFull(c, After(c, EMPTY, run), key, key, e1, newer, now);
    run := Extend(c, run, SetForever(key, newer, now, [key]), now);
  }

  lemma PersistBackwards(c: Config, run: seq<Op>, key: string, e1: Entry, e2: Entry, now: int) returns (longer: seq<Op>)
    requires Runs(c, EMPTY, run) && ClockRuns(run, now) && ClockAfter(run, now) == now
    requires After(c, EMPTY, run) == State(map[key := e2], map[], [Persist(key, e1), Persist(key, e2)])
    ensures longer == run + [RunTask(1, true), RunTask(0, true)]
    ensures Runs(c, EMPTY, longer) && ClockRuns(longer, now) && ClockAfter(longer, now) == now
    ensures After(c, EMPTY, longer) == State(map[key := e2], map[key := e1], [])
  {
    PersistSecond(c, After(c, EMPTY, run), key, e1, e2);
    longer := Extend(c, run, RunTask(1, true), now);
    PersistLast(c, After(c, EMPTY, longer), key, e1);
    longer := Extend(c, longer, RunTask(0, true), now);
    assert map[key := e2][key := e1] == map[key := e1];
  }

  /** An older value comes back: two Sets of a key whose goroutines reach the store in the wrong order,
      and a Set of another key that evicts it. */
  lemma OlderValueComesBack(key: string, other: string, older: string, newer: string, now: int) returns (run: seq<Op>)
    requires key != "" && other != "" && key != other
    ensures run == [SetForever(key, older, now, []), SetForever(key, newer, now, [key]),
                    RunTask(1, true), RunTask(0, true), SetForever(other, newer, now, [key])]
    ensures var c := Config(true, 1, true);
      && Runs(c, EMPTY, run) && ClockRuns(run, now)
      && GetStep(c, After(c, EMPTY, run), key, now, now, WORKS).0 == Some(Permanent(older, now))
  {
    var c := Config(true, 1, true);
    var e1, e2 := Permanent(older, now), Permanent(newer, now);
    run := SetTwice(c, key, older, newer, now);
    run := PersistBackwards(c, run, key, e1, e2, now);
    SetFull(c, After(c, EMPTY, run), key, other, e2, newer, now);
    run := Extend(c, run, SetForever(other, newer, now, [key]), now);
  }

  /** A Set into a full cache for one. */
  lemma SetFull(c: Config, s: State, key: string, other: string, e: Entry, value: string, now: int)
    requires c == Config(true, 1, true) && key != "" && s.entries == map[key := e]
    ensures Enabled(s, SetForever(other, value, now, [key]))
    ensures Step(c, s, SetForever(other, value, now, [key]))
         == State(map[other := Permanent(value, now)], s.store, s.tasks + [Persist(other, Permanent(value, now))])
  {
    assert [key][..0] == [] && Oldest([key][..0], s.entries) == "";
    assert Oldest([key], s.entries) == key;
    assert Without(s.entries, key) == map[];
  }

  lemma PersistSecond(c: Config, s: State, key: string, e1: Entry, e2: Entry)
    requires s.tasks == [Persist(key, e1), Persist(key, e2)]
    ensures Step(c, s, RunTask(1, true)) == State(s.entries, s.store[key := e2], [Persist(key, e1)])
  {
    assert s.tasks[..1] + s.tasks[2..] == [Persist(key, e1)];
  }

  lemma PersistLast(c: Config, s: State, key: string, e: Entry)
    requires s.tasks == [Persist(key, e)]
    ensures Step(c, s, RunTask(0, true)) == State(s.entries, s.store[key := e], [])
  {
    assert s.tasks[..0] + s.tasks[1..] == [];
  }

  /** With the empty key the limit fails: two Sets fill a cache meant for one entry. */
  lemma EmptyKeyOverflows(value: string, ttl: int, now: int)
    ensures var c := Config(true, 1, false);
      var run := [Set("", value, ttl, now, now, []), Set("a", value, ttl, now, now, [""])];
      Runs(c, EMPTY, run) && |After(c, EMPTY, run).entries| == 2
  {
    var c := Config(true, 1, false);
    var op1, op2 := Set("", value, ttl, now, now, []), Set("a", value, ttl, now, now, [""]);
    var s := Step(c, EMPTY, op1);
    assert s.entries == map["" := EntryOf(op1)];
    TwoSteps(c, EMPTY, op1, op2, now);
    SetKeepsLimitIff(c, s, op2);
    EvictedSize(op2.order, s.entries);
    EvictsNothingIff(op2.order, s.entries);
    InsertedSize(s.entries, "a", EntryOf(op2));
  }

  // ---- eviction keeps the newest ----

  predicate Before(a: Op, b: Op) {
    a.Set? && b.Set? && a.key != b.key && a.stampNow < b.stampNow
  }

  /** Sets of distinct, non-empty keys with strictly increasing stamps. */
  ghost predicate DistinctSets(run: seq<Op>) {
    && (forall i :: 0 <= i < |run| ==> run[i].Set? && run[i].key != "")
    && (forall i, j {:trigger Before(run[i], run[j])} :: 0 <= i < j < |run| ==> Before(run[i], run[j]))
  }

  /** `m` holds exactly the entries of run[from..]. */
  ghost predicate HoldsFrom(m: map<string, Entry>, run: seq<Op>, from: nat)
    requires DistinctSets(run)
  {
    && (forall i :: from <= i < |run| ==> run[i].key in m && m[run[i].key] == EntryOf(run[i]))
    && (forall k :: k in m ==> exists i :: from <= i < |run| && run[i].key == k)
  }

  function Kept(n: nat, maxSize: nat): nat {
    if n <= maxSize then 0 else n - maxSize
  }

  lemma {:induction false} KeysOfRun(run: seq<Op>, from: nat)
    requires DistinctSets(run) && from <= |run|
    ensures |set i | from <= i < |run| :: run[i].key| == |run| - from
    decreases |run| - from
  {
    if from < |run| {
      KeysOfRun(run, from + 1);
      forall i | from + 1 <= i < |run| ensures run[i].key != run[from].key {
        assert Before(run[from], run[i]);
      }
      assert (set i | from <= i < |run| :: run[i].key) == (set i | from + 1 <= i < |run| :: run[i].key) + {run[from].key};
    }
  }

  lemma HoldsFromSize(m: map<string, Entry>, run: seq<Op>, from: nat)
    requires DistinctSets(run) && from <= |run| && HoldsFrom(m, run, from)
    ensures |m| == |run| - from
  {
    KeysOfRun(run, from);
    assert m.Keys == (set i | from <= i < |run| :: run[i].key);
    assert |m| == |m.Keys|;
  }

  lemma OldestIsFirst(m: map<string, Entry>, run: seq<Op>, from: nat, order: seq<string>)
    requires DistinctSets(run) && from < |run| && HoldsFrom(m, run, from) && Enumerates(order, m)
    ensures Oldest(order, m) == run[from].key
  {
    var first := run[from].key;
    assert first in order;
    OldestIsOldest(order, m);
    var k := Oldest(order, m);
    assert k in m && m[k].timestamp <= m[first].timestamp;
    forall i | from < i < |run| ensures run[from].stampNow < run[i].stampNow {
      assert Before(run[from], run[i]);
    }
    var i :| from <= i < |run| && run[i].key == k;
  }

  lemma DropFirst(m: map<string, Entry>, run: seq<Op>, from: nat)
    requires DistinctSets(run) && from < |run| && HoldsFrom(m, run, from)
    ensures HoldsFrom(Without(m, run[from].key), run, from + 1)
  {
    var m' := Without(m, run[from].key);
    forall i | from + 1 <= i < |run| ensures run[i].key in m' && m'[run[i].key] == EntryOf(run[i]) {
      assert Before(run[from], run[i]);
    }
    forall k | k in m' ensures exists i :: from + 1 <= i < |run| && run[i].key == k {
      var i :| from <= i < |run| && run[i].key == k;
      assert i != from;
    }
  }

  lemma SetAppends(m: map<string, Entry>, init: seq<Op>, from: nat, op: Op)
    requires op.Set? && DistinctSets(init + [op]) && DistinctSets(init) && from <= |init| && HoldsFrom(m, init, from)
    ensures HoldsFrom(m[op.key := EntryOf(op)], init + [op], from)
  {
    var run, m' := init + [op], m[op.key := EntryOf(op)];
    assert run[|init|] == op && forall i :: 0 <= i < |init| ==> run[i] == init[i];
    forall i | from <= i < |run| ensures run[i].key in m' && m'[run[i].key] == EntryOf(run[i]) {
      if i < |init| {
        assert Before(run[i], run[|init|]);
      }
    }
    forall k | k in m' ensures exists i :: from <= i < |run| && run[i].key == k {
      if k == op.key {
        assert run[|init|].key == k;
      } else {
        var i :| from <= i < |init| && init[i].key == k;
        assert run[i].key == k;
      }
    }
  }

  lemma NewestStep(c: Config, s: State, init: seq<Op>, op: Op)
    requires c.enabled && c.maxSize > 0 && op.Set? && Enabled(s, op)
    requires DistinctSets(init + [op]) && DistinctSets(init)
    requires HoldsFrom(s.entries, init, Kept(|init|, c.maxSize))
    requires |s.entries| == if |init| <= c.maxSize then |init| else c.maxSize
    ensures HoldsFrom(SetStep(c, s, op).entries, init + [op], Kept(|init| + 1, c.maxSize))
  {
    var from := Kept(|init|, c.maxSize);
    if |init| >= c.maxSize {
      OldestIsFirst(s.entries, init, from, op.order);
      DropFirst(s.entries, init, from);
      SetAppends(Evicted(op.order, s.entries), init, from + 1, op);
    } else {
      SetAppends(s.entries, init, from, op);
    }
  }

  /** After n such Sets the cache holds exactly the last min(n, maxSize) of them. */
  lemma {:induction false} NewestSurvive(c: Config, run: seq<Op>)
    requires c.enabled && c.maxSize > 0 && DistinctSets(run) && Runs(c, EMPTY, run)
    ensures HoldsFrom(After(c, EMPTY, run).entries, run, Kept(|run|, c.maxSize))
    ensures |After(c, EMPTY, run).entries| == if |run| <= c.maxSize then |run| else c.maxSize
  {
    if run != [] {
      var init, op := run[..|run| - 1], run[|run| - 1];
      DistinctInit(run);
      NewestSurvive(c, init);
      NewestAfterSet(c, After(c, EMPTY, init), run);
    }
  }

  lemma DistinctInit(run: seq<Op>)
    requires DistinctSets(run) && run != []
    ensures DistinctSets(run[..|run| - 1])
  {
    var init := run[..|run| - 1];
    forall i, j | 0 <= i < j < |init| ensures Before(init[i], init[j]) {
      assert Before(run[i], run[j]);
    }
  }

  lemma {:induction false} NewestAfterSet(c: Config, s: State, run: seq<Op>)
    requires c.enabled && c.maxSize > 0 && run != [] && DistinctSets(run) && DistinctSets(run[..|run| - 1])
    requires Enabled(s, run[|run| - 1])
    requires HoldsFrom(s.entries, run[..|run| - 1], Kept(|run| - 1, c.maxSize))
    requires |s.entries| == if |run| - 1 <= c.maxSize then |run| - 1 else c.maxSize
    ensures HoldsFrom(Step(c, s, run[|run| - 1]).entries, run, Kept(|run|, c.maxSize))
    ensures |Step(c, s, run[|run| - 1]).entries| == if |run| <= c.maxSize then |run| else c.maxSize
  {
    var init, op := run[..|run| - 1], run[|run| - 1];
    var m := SetStep(c, s, op).entries;
    assert run == init + [op];
    NewestStep(c, s, init, op);
    assert HoldsFrom(m, run, Kept(|run|, c.maxSize));
    HoldsFromSize(m, run, Kept(|run|, c.maxSize));
  }

  // ---- the code ----

  class ExactMatchCache {
    const config: Config
    var entries: map<string, Entry>
    var store: map<string, Entry>
    var tasks: seq<Task>

    function View(): State
      reads this
    {
      State(entries, store, tasks)
    }

    constructor (config: Config)
      ensures this.config == config && View() == EMPTY
    {
      this.config := config;
      entries, store, tasks := map[], map[], [];
    }

    method GetEntry(key: string, loadNow: int, now: int, io: Io) returns (r: Option<Entry>)
      modifies this
      ensures (r, View()) == GetStep(config, old(View()), key, loadNow, now, io)
    {
      if !config.enabled {
        return None;
      }
      if key !in entries && config.persistent && io.readable && key in store {
        if loadNow < store[key].expiresAt {
          entries := entries[key := store[key]];
        } else if io.deletes {
          store := Without(store, key);
        }
      }
      if key !in entries {
        return None;
      }
      var entry := entries[key];
      if now > entry.expiresAt {
        entries := Without(entries, key);
        if config.persistent && io.deletes {
          store := Without(store, key);
        }
        return None;
      }
      return Some(entry);
    }

    method SetEntry(op: Op)
      requires op.Set? && Enabled(View(), op)
      modifies this
      ensures View() == SetStep(config, old(View()), op)
    {
      if !config.enabled {
        return;
      }
      var expiresAt := op.expiryNow + op.ttl;
      if op.ttl == 0 {
        expiresAt := op.expiryNow + HUNDRED_YEARS;
      }
      if config.maxSize > 0 && |entries| >= config.maxSize {
        EvictOldest(op.order);
      }
      var entry := Entry(op.value, op.stampNow, expiresAt);
      entries := entries[op.key := entry];
      if config.persistent {
        tasks := tasks + [Persist(op.key, entry)];
      }
    }

    method EvictOldest(order: seq<string>)
      requires Enumerates(order, entries)
      modifies this`entries
      ensures entries == Evicted(order, old(entries))
    {
      if |entries| == 0 {
        return;
      }
      var oldestKey, oldestTime := "", 0;
      for i := 0 to |order|
        invariant entries == old(entries)
        invariant oldestKey == Oldest(order[..i], entries)
        invariant oldestKey != "" ==> oldestKey in entries && oldestTime == entries[oldestKey].timestamp
      {
        OldestNext(order, entries, i);
        if oldestKey == "" || entries[order[i]].timestamp < oldestTime {
          oldestKey := order[i];
          oldestTime := entries[order[i]].timestamp;
        }
      }
      assert order[..|order|] == order;
      if oldestKey != "" {
        entries := Without(entries, oldestKey);
      }
    }

    method DeleteKey(key: string)
      modifies this
      ensures View() == Step(config, old(View()), Delete(key))
    {
      entries := Without(entries, key);
      if config.persistent {
        tasks := tasks + [Remove(key)];
      }
    }

    method ClearAll(flushed: bool)
      modifies this
      ensures View() == Step(config, old(View()), Clear(flushed))
    {
      entries := map[];
      if config.persistent && flushed {
        store := map[];
      }
    }

    /** The range loop deletes from the map it visits, in any order. */
    method CleanupExpired(now: int, order: seq<string>)
      requires Enumerates(order, entries)
      modifies this`entries
      ensures entries == Fresh(old(entries), now)
    {
      ghost var before, visited: set<string> := entries, {};
      for i := 0 to |order|
        invariant forall k :: k in visited <==> k in order[..i]
        invariant entries == FreshAmong(before, visited, now)
      {
        var key := order[i];
        assert order[..i + 1] == order[..i] + [key];
        VisitOne(before, visited, key, now);
        if now > entries[key].expiresAt {
          entries := Without(entries, key);
        }
        visited := visited + {key};
      }
      assert order[..|order|] == order;
      assert visited == before.Keys;
    }
  }

  lemma OldestNext(order: seq<string>, m: map<string, Entry>, i: nat)
    requires i < |order| && forall k :: k in order ==> k in m
    ensures var best := Oldest(order[..i], m);
      Oldest(order[..i + 1], m) == if best == "" || m[order[i]].timestamp < m[best].timestamp then order[i] else best
  {
    assert order[..i + 1][..i] == order[..i];
  }

  /** Cleanup after visiting the keys in `visited`. */
  function FreshAmong(m: map<string, Entry>, visited: set<string>, now: int): map<string, Entry> {
    map k | k in m && !(k in visited && now > m[k].expiresAt) :: m[k]
  }

  lemma VisitOne(m: map<string, Entry>, visited: set<string>, key: string, now: int)
    requires key in m && key !in visited
    ensures key in FreshAmong(m, visited, now) && FreshAmong(m, visited, now)[key] == m[key]
    ensures FreshAmong(m, visited + {key}, now) ==
            if now > m[key].expiresAt then Without(FreshAmong(m, visited, now), key) else FreshAmong(m, visited, now)
  {
  }
}
