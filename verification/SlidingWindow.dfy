/**
 The Redis sliding-window limiter: the script's work on sorted sets, and its agreement
 with a naive counter over the whole request history. Times are in milliseconds.
 */
module SlidingWindow {
  import opened Basics

  const WINDOW_MS := 60_000
  const EXPIRE_MS := 120_000
  const UNLIMITED := 9223372036854775807

  /** A sorted-set member `now:seq`; its score is `now`. */
  datatype Member = Member(now: nat, serial: nat)

  /** A sorted set with the deadline EXPIRE gave it. Redis keeps no empty sorted set. */
  datatype ZSet = ZSet(members: map<Member, nat>, deadline: Option<int>)

  const NO_ZSET := ZSet(map[], None)

  // ---- keys ----

  function RpmKey(key: string): string { "ratelimit:vk:" + key + ":rpm" }

  function TpmKey(key: string): string { "ratelimit:vk:" + key + ":tpm" }

  function SeqKey(zkey: string): string { zkey + ":seq" }

  lemma SeqKeyIsInjective(j: string, k: string)
    requires SeqKey(j) == SeqKey(k)
    ensures j == k
  {
    assert |SeqKey(j)| == |j| + 4 && |SeqKey(k)| == |k| + 4;
    assert SeqKey(j)[..|j|] == j && SeqKey(k)[..|k|] == k;
  }

  lemma KeysAreInjective(a: string, b: string)
    ensures RpmKey(a) == RpmKey(b) || TpmKey(a) == TpmKey(b) ==> a == b
  {
    var p := "ratelimit:vk:";
    assert RpmKey(a)[|p|..][..|a|] == a && TpmKey(a)[|p|..][..|a|] == a;
    assert RpmKey(b)[|p|..][..|b|] == b && TpmKey(b)[|p|..][..|b|] == b;
  }

  lemma LimitsDiffer(a: string, b: string)
    ensures RpmKey(a) != TpmKey(b)
  {
    assert RpmKey(a)[|RpmKey(a)| - 3] == 'r' && TpmKey(b)[|TpmKey(b)| - 3] == 't';
  }

  lemma CountersDiffer(k: string, b: string)
    ensures SeqKey(k) != RpmKey(b) && SeqKey(k) != TpmKey(b)
  {
    assert Last(SeqKey(k)) == 'q' && Last(RpmKey(b)) == 'm' && Last(TpmKey(b)) == 'm';
  }

  /** Different API keys, the two limits of one key, and the counters never share a Redis key. */
  lemma KeysNeverCollide(a: string, b: string)
    ensures a != b ==> RpmKey(a) != RpmKey(b) && TpmKey(a) != TpmKey(b)
    ensures RpmKey(a) != TpmKey(b)
    ensures SeqKey(RpmKey(a)) != RpmKey(b) && SeqKey(RpmKey(a)) != TpmKey(b)
    ensures SeqKey(TpmKey(a)) != RpmKey(b) && SeqKey(TpmKey(a)) != TpmKey(b)
    ensures SeqKey(RpmKey(a)) != SeqKey(TpmKey(b))
    ensures a != b ==> SeqKey(RpmKey(a)) != SeqKey(RpmKey(b)) && SeqKey(TpmKey(a)) != SeqKey(TpmKey(b))
  {
    KeysAreInjective(a, b);
    LimitsDiffer(a, b);
    CountersDiffer(RpmKey(a), b);
    CountersDiffer(TpmKey(a), b);
    if SeqKey(RpmKey(a)) == SeqKey(TpmKey(b)) { SeqKeyIsInjective(RpmKey(a), TpmKey(b)); }
    if SeqKey(RpmKey(a)) == SeqKey(RpmKey(b)) { SeqKeyIsInjective(RpmKey(a), RpmKey(b)); }
    if SeqKey(TpmKey(a)) == SeqKey(TpmKey(b)) { SeqKeyIsInjective(TpmKey(a), TpmKey(b)); }
  }

  function Last(s: string): char
    requires s != ""
  {
    s[|s| - 1]
  }

  // ---- the script as a function of one sorted set ----

  /** What Redis still holds at `now`. */
  function Unexpired(z: ZSet, now: int): ZSet {
    if z.deadline.Some? && z.deadline.value <= now then NO_ZSET else z
  }

  /** ZREMRANGEBYSCORE key 0 now-window. */
  function Trim(z: ZSet, now: nat): ZSet {
    var kept := map m | m in z.members && !(0 <= z.members[m] <= now - WINDOW_MS) :: z.members[m];
    if kept == map[] then NO_ZSET else z.(members := kept)
  }

  datatype Checked = Checked(pass: bool, remaining: int, z: ZSet, serial: nat)

  /** The Lua `check` on the set and its `:seq` counter. */
  function Check(z: ZSet, serial: nat, limit: int, now: nat): Checked {
    if limit <= 0 then Checked(true, UNLIMITED, z, serial)
    else
      var t := Trim(Unexpired(z, now), now);
      if |t.members| >= limit then Checked(false, 0, t, serial)
      else
        Checked(true, limit - |t.members| - 1,
                ZSet(t.members[Member(now, serial + 1) := now], Some(now + EXPIRE_MS)), serial + 1)
  }

  // ---- the naive counter ----

  /** How many recorded requests lie in (now - window, now]; the log is never trimmed. */
  function Recent(log: seq<nat>, now: nat): nat {
    if log == [] then 0
    else Recent(log[..|log| - 1], now) + (if now - WINDOW_MS < log[|log| - 1] then 1 else 0)
  }

  predicate NaivePass(log: seq<nat>, limit: int, now: nat) {
    limit <= 0 || Recent(log, now) < limit
  }

  function NaiveLog(log: seq<nat>, limit: int, now: nat): seq<nat> {
    if limit > 0 && Recent(log, now) < limit then log + [now] else log
  }

  // ---- one sorted set stands for one log ----

  predicate Sorted(log: seq<nat>) {
    forall i, j :: 0 <= i < j < |log| ==> log[i] <= log[j]
  }

  /** `z` and its counter after the requests in `log`, the last one no later than `clock`:
      the set may have lost entries, but none that can still matter. */
  ghost predicate Stands(z: ZSet, serial: nat, log: seq<nat>, clock: int) {
    && Sorted(log) && serial == |log|
    && (forall i :: 0 <= i < |log| ==> log[i] <= clock)
    && (forall m :: m in z.members ==>
          1 <= m.serial <= |log| && z.members[m] == m.now == log[m.serial - 1])
    && (forall i :: 0 <= i < |log| && clock - WINDOW_MS < log[i] ==> Member(log[i], i + 1) in z.members)
    && (z.members != map[] ==> log != [] && z.deadline == Some(log[|log| - 1] + EXPIRE_MS))
  }

  /** The members of the entries still inside the window at `now`. */
  ghost function Inside(log: seq<nat>, now: int): set<Member> {
    set i | 0 <= i < |log| && now - WINDOW_MS < log[i] :: Member(log[i], i + 1)
  }

  lemma InsideNext(log: seq<nat>, now: nat)
    requires log != []
    ensures var n := |log| - 1;
      Inside(log, now) == Inside(log[..n], now) + (if now - WINDOW_MS < log[n] then {Member(log[n], n + 1)} else {})
  {
    var n := |log| - 1;
    var init, last := log[..n], Member(log[n], n + 1);
    forall m | m in Inside(log, now)
      ensures m in Inside(init, now) + (if now - WINDOW_MS < log[n] then {last} else {})
    {
      var i :| 0 <= i < |log| && now - WINDOW_MS < log[i] && m == Member(log[i], i + 1);
      if i < n { assert init[i] == log[i]; }
    }
    forall m | m in Inside(init, now) ensures m in Inside(log, now) {
      var i :| 0 <= i < |init| && now - WINDOW_MS < init[i] && m == Member(init[i], i + 1);
      assert log[i] == init[i];
    }
  }

  lemma {:induction false} InsideCounts(log: seq<nat>, now: nat)
    ensures |Inside(log, now)| == Recent(log, now)
  {
    if log != [] {
      var n := |log| - 1;
      InsideCounts(log[..n], now);
      InsideNext(log, now);
      assert Member(log[n], n + 1) !in Inside(log[..n], now);
    }
  }

  lemma KeptIsInside(z: ZSet, serial: nat, log: seq<nat>, clock: int, now: nat, m: Member)
    requires Stands(z, serial, log, clock) && clock <= now && m in Trim(Unexpired(z, now), now).members
    ensures m in Inside(log, now)
  {
    var i := m.serial - 1;
    assert m in z.members;
    assert log[i] == m.now && m == Member(log[i], i + 1);
  }

  lemma InsideIsKept(z: ZSet, serial: nat, log: seq<nat>, clock: int, now: nat, i: nat)
    requires Stands(z, serial, log, clock) && clock <= now && i < |log| && now - WINDOW_MS < log[i]
    ensures Member(log[i], i + 1) in Trim(Unexpired(z, now), now).members
  {
    var m := Member(log[i], i + 1);
    assert m in z.members && z.members[m] == log[i];
    assert log[i] <= log[|log| - 1];
    assert Unexpired(z, now) == z;
  }

  /** Expiry and trimming leave exactly the entries of the last window. */
  lemma {:induction false} TrimmedIsInside(z: ZSet, serial: nat, log: seq<nat>, clock: int, now: nat)
    requires Stands(z, serial, log, clock) && clock <= now
    ensures Trim(Unexpired(z, now), now).members.Keys == Inside(log, now)
  {
    var kept := Trim(Unexpired(z, now), now).members;
    forall m | m in kept.Keys ensures m in Inside(log, now) { KeptIsInside(z, serial, log, clock, now, m); }
    forall m | m in Inside(log, now) ensures m in kept.Keys {
      var i :| 0 <= i < |log| && now - WINDOW_MS < log[i] && m == Member(log[i], i + 1);
      InsideIsKept(z, serial, log, clock, now, i);
    }
  }

  lemma TrimStands(z: ZSet, serial: nat, log: seq<nat>, clock: int, now: nat)
    requires Stands(z, serial, log, clock) && clock <= now
    ensures Stands(Trim(Unexpired(z, now), now), serial, log, now)
    ensures |Trim(Unexpired(z, now), now).members| == Recent(log, now)
  {
    TrimmedIsInside(z, serial, log, clock, now);
    InsideCounts(log, now);
    var t := Trim(Unexpired(z, now), now);
    assert |t.members| == |t.members.Keys|;
    forall i | 0 <= i < |log| && now - WINDOW_MS < log[i] ensures Member(log[i], i + 1) in t.members {
      assert Member(log[i], i + 1) in Inside(log, now);
    }
  }

  lemma AddStands(t: ZSet, serial: nat, log: seq<nat>, now: nat)
    requires Stands(t, serial, log, now)
    ensures Stands(ZSet(t.members[Member(now, serial + 1) := now], Some(now + EXPIRE_MS)), serial + 1, log + [now], now)
  {
    var z := ZSet(t.members[Member(now, serial + 1) := now], Some(now + EXPIRE_MS));
    var log' := log + [now];
    forall m | m in z.members ensures 1 <= m.serial <= |log'| && z.members[m] == m.now == log'[m.serial - 1] {
      if m != Member(now, serial + 1) { assert m in t.members; }
    }
    forall i | 0 <= i < |log'| && now - WINDOW_MS < log'[i] ensures Member(log'[i], i + 1) in z.members {
      if i < |log| { assert log'[i] == log[i]; }
    }
  }

  function NaiveRemaining(log: seq<nat>, limit: int, now: nat): int {
    if limit <= 0 then UNLIMITED
    else if Recent(log, now) < limit then limit - Recent(log + [now], now)
    else 0
  }

  /** The script's decision, its remaining count and its new set agree with the untrimmed log. */
  lemma {:induction false} CheckIsNaive(z: ZSet, serial: nat, log: seq<nat>, clock: int, limit: int, now: nat)
    requires Stands(z, serial, log, clock) && clock <= now
    ensures Check(z, serial, limit, now).pass == NaivePass(log, limit, now)
    ensures Check(z, serial, limit, now).remaining == NaiveRemaining(log, limit, now)
    ensures Stands(Check(z, serial, limit, now).z, Check(z, serial, limit, now).serial, NaiveLog(log, limit, now), now)
  {
    if limit > 0 {
      TrimStands(z, serial, log, clock, now);
      CheckTrimmed(Trim(Unexpired(z, now), now), serial, log, limit, now);
    } else {
      StandsLater(z, serial, log, clock, now);
    }
  }

  lemma CheckTrimmed(t: ZSet, serial: nat, log: seq<nat>, limit: int, now: nat)
    requires Stands(t, serial, log, now) && |t.members| == Recent(log, now) && limit > 0
    ensures |t.members| < limit ==>
      && limit - |t.members| - 1 == NaiveRemaining(log, limit, now)
      && Stands(ZSet(t.members[Member(now, serial + 1) := now], Some(now + EXPIRE_MS)), serial + 1, NaiveLog(log, limit, now), now)
    ensures |t.members| >= limit ==> Stands(t, serial, NaiveLog(log, limit, now), now)
  {
    if |t.members| < limit {
      AddStands(t, serial, log, now);
      assert (log + [now])[..|log|] == log;
    }
  }

  lemma StandsLater(z: ZSet, serial: nat, log: seq<nat>, clock: int, now: int)
    requires Stands(z, serial, log, clock) && clock <= now
    ensures Stands(z, serial, log, now)
  {
  }

  // ---- the whole script over a run of requests ----

  datatype Request = Request(key: string, rpm: int, tpm: int, now: nat)

  datatype Reply = Reply(ok: bool, remainingRPM: int, remainingTPM: int)

  datatype Store = Store(zsets: map<string, ZSet>, serials: map<string, nat>)

  const REFUSED := Reply(false, 0, 0)

  function ZSetAt(st: Store, k: string): ZSet {
    if k in st.zsets then st.zsets[k] else NO_ZSET
  }

  function SerialAt(st: Store, k: string): nat {
    if SeqKey(k) in st.serials then st.serials[SeqKey(k)] else 0
  }

  function CheckAt(st: Store, k: string, limit: int, now: nat): (Checked, Store) {
    var c := Check(ZSetAt(st, k), SerialAt(st, k), limit, now);
    if limit <= 0 then (c, st)
    else if !c.pass then (c, st.(zsets := st.zsets[k := c.z]))
    else (c, Store(st.zsets[k := c.z], st.serials[SeqKey(k) := c.serial]))
  }

  function Script(st: Store, q: Request): (Reply, Store) {
    var (r, st1) := CheckAt(st, RpmKey(q.key), q.rpm, q.now);
    if !r.pass then (REFUSED, st1)
    else
      var (t, st2) := CheckAt(st1, TpmKey(q.key), q.tpm, q.now);
      (if t.pass then Reply(true, r.remaining, t.remaining) else REFUSED, st2)
  }

  function StoreAfter(run: seq<Request>): Store {
    if run == [] then Store(map[], map[])
    else Script(StoreAfter(run[..|run| - 1]), run[|run| - 1]).1
  }

  /** The script's reply to the last request of a run. */
  function LastReply(run: seq<Request>): Reply
    requires run != []
  {
    Script(StoreAfter(run[..|run| - 1]), run[|run| - 1]).0
  }

  predicate ClockRuns(run: seq<Request>) {
    forall i, j :: 0 <= i < j < |run| ==> run[i].now <= run[j].now
  }

  function Clock(run: seq<Request>): int {
    if run == [] then 0 else run[|run| - 1].now
  }

  // ---- the naive limiter: two append-only logs per API key ----

  /** Requests of `key` that passed the RPM check, whether or not TPM refused them afterwards. */
  function RpmLog(run: seq<Request>, key: string): seq<nat> {
    if run == [] then []
    else
      var init, q := run[..|run| - 1], run[|run| - 1];
      if q.key == key then NaiveLog(RpmLog(init, key), q.rpm, q.now) else RpmLog(init, key)
  }

  function TpmLog(run: seq<Request>, key: string): seq<nat> {
    if run == [] then []
    else
      var init, q := run[..|run| - 1], run[|run| - 1];
      if q.key == key && NaivePass(RpmLog(init, key), q.rpm, q.now) then NaiveLog(TpmLog(init, key), q.tpm, q.now)
      else TpmLog(init, key)
  }

  function NaiveReply(init: seq<Request>, q: Request): Reply {
    var r, t := RpmLog(init, q.key), TpmLog(init, q.key);
    if NaivePass(r, q.rpm, q.now) && NaivePass(t, q.tpm, q.now) then
      Reply(true, NaiveRemaining(r, q.rpm, q.now), NaiveRemaining(t, q.tpm, q.now))
    else REFUSED
  }

  ghost predicate StoreStands(run: seq<Request>, st: Store, key: string) {
    && Stands(ZSetAt(st, RpmKey(key)), SerialAt(st, RpmKey(key)), RpmLog(run, key), Clock(run))
    && Stands(ZSetAt(st, TpmKey(key)), SerialAt(st, TpmKey(key)), TpmLog(run, key), Clock(run))
  }

  lemma CheckAtOther(st: Store, k: string, limit: int, now: nat, other: string)
    requires k != other
    ensures ZSetAt(CheckAt(st, k, limit, now).1, other) == ZSetAt(st, other)
    ensures SerialAt(CheckAt(st, k, limit, now).1, other) == SerialAt(st, other)
  {
    assert SeqKey(k)[..|k|] == k && SeqKey(other)[..|other|] == other;
    if |k| != |other| { assert |SeqKey(k)| != |SeqKey(other)|; }
  }

  /** One check on `k` keeps the set at `k` in step with its log. */
  lemma {:induction false} CheckAtStands(st: Store, k: string, log: seq<nat>, clock: int, limit: int, now: nat)
    requires Stands(ZSetAt(st, k), SerialAt(st, k), log, clock) && clock <= now
    ensures var (c, st') := CheckAt(st, k, limit, now);
      && c.pass == NaivePass(log, limit, now) && c.remaining == NaiveRemaining(log, limit, now)
      && Stands(ZSetAt(st', k), SerialAt(st', k), NaiveLog(log, limit, now), now)
  {
    CheckIsNaive(ZSetAt(st, k), SerialAt(st, k), log, clock, limit, now);
  }

  lemma OneMoreMember(members: map<Member, nat>, m: Member, score: nat)
    requires m !in members
    ensures |members[m := score]| == |members| + 1
  {
    assert members[m := score].Keys == members.Keys + {m};
    assert |members[m := score]| == |members[m := score].Keys| && |members| == |members.Keys|;
  }

  lemma NewMemberIsNew(t: ZSet, serial: nat, log: seq<nat>, now: nat)
    requires Stands(t, serial, log, now)
    ensures Member(now, serial + 1) !in t.members
  {
  }

  lemma CheckSize(z: ZSet, serial: nat, log: seq<nat>, clock: int, limit: int, now: nat)
    requires Stands(z, serial, log, clock) && clock <= now && limit > 0
    ensures |Check(z, serial, limit, now).z.members| == Recent(log, now) + if Recent(log, now) < limit then 1 else 0
  {
    var t := Trim(Unexpired(z, now), now);
    TrimStands(z, serial, log, clock, now);
    NewMemberIsNew(t, serial, log, now);
    OneMoreMember(t.members, Member(now, serial + 1), now);
  }

  /** After a check, passed or not, the set holds exactly what was recorded in the last window. */
  lemma CheckTrims(st: Store, k: string, log: seq<nat>, clock: int, limit: int, now: nat)
    requires Stands(ZSetAt(st, k), SerialAt(st, k), log, clock) && clock <= now && limit > 0
    ensures |ZSetAt(CheckAt(st, k, limit, now).1, k).members| == Recent(NaiveLog(log, limit, now), now)
  {
    CheckSize(ZSetAt(st, k), SerialAt(st, k), log, clock, limit, now);
    RecentAppend(log, now, now);
  }

  /** One check on `k` leaves every other set in step with its log. */
  lemma CheckAtOtherStands(st: Store, k: string, limit: int, other: string, log: seq<nat>, clock: int, now: nat)
    requires Stands(ZSetAt(st, other), SerialAt(st, other), log, clock) && clock <= now && k != other
    ensures Stands(ZSetAt(CheckAt(st, k, limit, now).1, other), SerialAt(CheckAt(st, k, limit, now).1, other), log, now)
  {
    CheckAtOther(st, k, limit, now, other);
    StandsLater(ZSetAt(st, other), SerialAt(st, other), log, clock, now);
  }

  lemma {:induction false} ScriptOwnKey(init: seq<Request>, st: Store, q: Request)
    requires StoreStands(init, st, q.key) && Clock(init) <= q.now
    ensures StoreStands(init + [q], Script(st, q).1, q.key)
    ensures Script(st, q).0 == NaiveReply(init, q)
  {
    assert (init + [q])[..|init|] == init;
    KeysNeverCollide(q.key, q.key);
    var rk, tk := RpmKey(q.key), TpmKey(q.key);
    var r, t := RpmLog(init, q.key), TpmLog(init, q.key);
    CheckAtStands(st, rk, r, Clock(init), q.rpm, q.now);
    CheckAtOtherStands(st, rk, q.rpm, tk, t, Clock(init), q.now);
    var st1 := CheckAt(st, rk, q.rpm, q.now).1;
    CheckAtStands(st1, tk, t, q.now, q.tpm, q.now);
    CheckAtOtherStands(st1, tk, q.tpm, rk, NaiveLog(r, q.rpm, q.now), q.now, q.now);
  }

  lemma {:induction false} ScriptOtherKey(init: seq<Request>, st: Store, q: Request, key: string)
    requires StoreStands(init, st, key) && Clock(init) <= q.now && key != q.key
    ensures StoreStands(init + [q], Script(st, q).1, key)
  {
    assert (init + [q])[..|init|] == init;
    KeysNeverCollide(q.key, key);
    KeysNeverCollide(key, q.key);
    var rk, tk := RpmKey(q.key), TpmKey(q.key);
    var r, t := RpmLog(init, key), TpmLog(init, key);
    CheckAtOtherStands(st, rk, q.rpm, RpmKey(key), r, Clock(init), q.now);
    CheckAtOtherStands(st, rk, q.rpm, TpmKey(key), t, Clock(init), q.now);
    var st1 := CheckAt(st, rk, q.rpm, q.now).1;
    CheckAtOtherStands(st1, tk, q.tpm, RpmKey(key), r, q.now, q.now);
    CheckAtOtherStands(st1, tk, q.tpm, TpmKey(key), t, q.now, q.now);
  }

  lemma {:induction false} RunStands(run: seq<Request>, key: string)
    requires ClockRuns(run)
    ensures StoreStands(run, StoreAfter(run), key)
    decreases |run|
  {
    if run != [] {
      var init, q := run[..|run| - 1], run[|run| - 1];
      RunStands(init, key);
      assert run == init + [q];
      if key == q.key {
        ScriptOwnKey(init, StoreAfter(init), q);
      } else {
        ScriptOtherKey(init, StoreAfter(init), q, key);
      }
    }
  }

  /** Over every run, whatever the limits and the other keys, the script answers like the naive
      counter: trimming and the 120 s expiry never change a decision. */
  lemma ScriptRefinesNaive(run: seq<Request>)
    requires ClockRuns(run) && run != []
    ensures LastReply(run) == NaiveReply(run[..|run| - 1], run[|run| - 1])
  {
    var init, q := run[..|run| - 1], run[|run| - 1];
    RunStands(init, q.key);
    ScriptOwnKey(init, StoreAfter(init), q);
  }

  // ---- the window bound ----

  /** How many entries lie in the window [a, a + WINDOW_MS). */
  function CountIn(log: seq<nat>, a: int): nat {
    if log == [] then 0
    else CountIn(log[..|log| - 1], a) + (if a <= log[|log| - 1] < a + WINDOW_MS then 1 else 0)
  }

  /** Entries `limit` apart are at least one window apart. */
  ghost predicate Spaced(log: seq<nat>, limit: nat) {
    forall i, j :: 0 <= i && j == i + limit && j < |log| ==> log[i] + WINDOW_MS <= log[j]
  }

  lemma {:induction false} RecentAtLeast(log: seq<nat>, now: nat, k: nat)
    requires k <= |log| && forall i :: k <= i < |log| ==> now - WINDOW_MS < log[i]
    ensures Recent(log, now) >= |log| - k
  {
    if k < |log| {
      RecentAtLeast(log[..|log| - 1], now, k);
    }
  }

  lemma {:induction false} CountAtMost(log: seq<nat>, a: int, k: nat)
    requires k <= |log| && forall i :: 0 <= i < k ==> log[i] < a
    ensures CountIn(log, a) <= |log| - k
  {
    if k < |log| {
      CountAtMost(log[..|log| - 1], a, k);
    } else if log != [] {
      CountAtMost(log[..|log| - 1], a, k - 1);
    }
  }

  lemma {:induction false} SpacedWindow(log: seq<nat>, limit: nat, a: int)
    requires Sorted(log) && Spaced(log, limit) && limit > 0
    ensures CountIn(log, a) <= limit
  {
    if log != [] {
      var n := |log| - 1;
      SpacedWindow(log[..n], limit, a);
      if n < limit {
        CountAtMost(log, a, 0);
      } else if a <= log[n] < a + WINDOW_MS {
        assert log[n - limit] + WINDOW_MS <= log[n];
        CountAtMost(log, a, n - limit + 1);
      }
    }
  }

  lemma NaiveLogSpaced(log: seq<nat>, limit: int, bound: nat, now: nat)
    requires Sorted(log) && Spaced(log, bound) && 0 < limit <= bound
    requires forall i :: 0 <= i < |log| ==> log[i] <= now
    ensures Sorted(NaiveLog(log, limit, now)) && Spaced(NaiveLog(log, limit, now), bound)
    ensures forall i :: 0 <= i < |NaiveLog(log, limit, now)| ==> NaiveLog(log, limit, now)[i] <= now
  {
    if Recent(log, now) < limit && bound <= |log| && now - WINDOW_MS < log[|log| - bound] {
      RecentAtLeast(log, now, |log| - bound);
    }
  }

  predicate RpmLimited(run: seq<Request>, key: string, rpm: nat) {
    forall i :: 0 <= i < |run| && run[i].key == key ==> 0 < run[i].rpm <= rpm
  }

  predicate TpmLimited(run: seq<Request>, key: string, tpm: nat) {
    forall i :: 0 <= i < |run| && run[i].key == key ==> 0 < run[i].tpm <= tpm
  }

  lemma {:induction false} RpmLogSpaced(run: seq<Request>, key: string, rpm: nat)
    requires ClockRuns(run) && RpmLimited(run, key, rpm)
    ensures Sorted(RpmLog(run, key)) && Spaced(RpmLog(run, key), rpm)
    ensures forall i :: 0 <= i < |RpmLog(run, key)| ==> RpmLog(run, key)[i] <= Clock(run)
  {
    if run != [] {
      var init, q := run[..|run| - 1], run[|run| - 1];
      RpmLogSpaced(init, key, rpm);
      if q.key == key { NaiveLogSpaced(RpmLog(init, key), q.rpm, rpm, q.now); }
    }
  }

  lemma {:induction false} TpmLogSpaced(run: seq<Request>, key: string, tpm: nat)
    requires ClockRuns(run) && TpmLimited(run, key, tpm)
    ensures Sorted(TpmLog(run, key)) && Spaced(TpmLog(run, key), tpm)
    ensures forall i :: 0 <= i < |TpmLog(run, key)| ==> TpmLog(run, key)[i] <= Clock(run)
  {
    if run != [] {
      var init, q := run[..|run| - 1], run[|run| - 1];
      TpmLogSpaced(init, key, tpm);
      if q.key == key { NaiveLogSpaced(TpmLog(init, key), q.tpm, tpm, q.now); }
    }
  }

  /** How many requests of `key` the script admitted in the window [a, a + WINDOW_MS). */
  function AdmittedIn(run: seq<Request>, key: string, a: int): nat {
    if run == [] then 0
    else
      var q := run[|run| - 1];
      AdmittedIn(run[..|run| - 1], key, a)
      + (if q.key == key && LastReply(run).ok && a <= q.now < a + WINDOW_MS then 1 else 0)
  }

  lemma {:induction false} AdmittedAreLogged(run: seq<Request>, key: string, a: int)
    requires ClockRuns(run)
    ensures (forall i :: 0 <= i < |run| && run[i].key == key ==> run[i].rpm > 0)
            ==> AdmittedIn(run, key, a) <= CountIn(RpmLog(run, key), a)
    ensures (forall i :: 0 <= i < |run| && run[i].key == key ==> run[i].tpm > 0)
            ==> AdmittedIn(run, key, a) <= CountIn(TpmLog(run, key), a)
  {
    if run != [] {
      var init, q := run[..|run| - 1], run[|run| - 1];
      AdmittedAreLogged(init, key, a);
      ScriptRefinesNaive(run);
      assert (RpmLog(init, key) + [q.now])[..|RpmLog(init, key)|] == RpmLog(init, key);
      assert (TpmLog(init, key) + [q.now])[..|TpmLog(init, key)|] == TpmLog(init, key);
      if forall i :: 0 <= i < |run| && run[i].key == key ==> run[i].rpm > 0 {
        assert forall i :: 0 <= i < |init| ==> init[i] == run[i];
      }
      if forall i :: 0 <= i < |run| && run[i].key == key ==> run[i].tpm > 0 {
        assert forall i :: 0 <= i < |init| ==> init[i] == run[i];
      }
    }
  }

  /** In every window of 60 s of every run the script admits at most `rpm` requests of a key. */
  lemma {:induction false} WindowBoundRpm(run: seq<Request>, key: string, rpm: nat, a: int)
    requires ClockRuns(run) && RpmLimited(run, key, rpm)
    ensures AdmittedIn(run, key, a) <= rpm
  {
    AdmittedAreLogged(run, key, a);
    RpmLogSpaced(run, key, rpm);
    if rpm > 0 {
      SpacedWindow(RpmLog(run, key), rpm, a);
    } else {
      NoneAdmitted(run, key, a);
    }
  }

  lemma {:induction false} WindowBoundTpm(run: seq<Request>, key: string, tpm: nat, a: int)
    requires ClockRuns(run) && TpmLimited(run, key, tpm)
    ensures AdmittedIn(run, key, a) <= tpm
  {
    AdmittedAreLogged(run, key, a);
    TpmLogSpaced(run, key, tpm);
    if tpm > 0 {
      SpacedWindow(TpmLog(run, key), tpm, a);
    } else {
      NoneAdmitted(run, key, a);
    }
  }

  lemma {:induction false} NoneAdmitted(run: seq<Request>, key: string, a: int)
    requires forall i :: 0 <= i < |run| ==> run[i].key != key
    ensures AdmittedIn(run, key, a) == 0
  {
    if run != [] { NoneAdmitted(run[..|run| - 1], key, a); }
  }

  // ---- what a refusal by TPM costs ----

  /** A refused request is recorded for RPM exactly when RPM is limited and passed it, and TPM did not. */
  lemma RefusalIsRecordedIff(init: seq<Request>, q: Request)
    ensures !NaiveReply(init, q).ok && RpmLog(init + [q], q.key) != RpmLog(init, q.key)
      <==> q.rpm > 0 && NaivePass(RpmLog(init, q.key), q.rpm, q.now) && !NaivePass(TpmLog(init, q.key), q.tpm, q.now)
  {
    assert (init + [q])[..|init|] == init;
  }

  /** The recorded but refused requests of `key`. */
  function RefusedLog(run: seq<Request>, key: string): seq<nat> {
    if run == [] then []
    else
      var init, q := run[..|run| - 1], run[|run| - 1];
      if q.key == key && NaivePass(RpmLog(init, key), q.rpm, q.now) && !NaivePass(TpmLog(init, key), q.tpm, q.now)
      then RefusedLog(init, key) + [q.now]
      else RefusedLog(init, key)
  }

  predicate FixedLimits(run: seq<Request>, key: string, rpm: nat, tpm: nat) {
    forall i :: 0 <= i < |run| && run[i].key == key ==> run[i].rpm == rpm && run[i].tpm == tpm
  }

  lemma RecentAppend(log: seq<nat>, t: nat, now: nat)
    ensures Recent(log + [t], now) == Recent(log, now) + if now - WINDOW_MS < t then 1 else 0
  {
    assert (log + [t])[..|log|] == log;
  }

  lemma {:induction false} RecentLater(log: seq<nat>, early: nat, late: nat)
    requires early <= late
    ensures Recent(log, late) <= Recent(log, early)
  {
    if log != [] { RecentLater(log[..|log| - 1], early, late); }
  }

  /** What RPM has recorded was either admitted or refused by TPM. */
  lemma {:induction false} RecordedSplits(run: seq<Request>, key: string, rpm: nat, tpm: nat, now: nat)
    requires FixedLimits(run, key, rpm, tpm) && rpm > 0 && tpm > 0
    ensures Recent(RpmLog(run, key), now) == Recent(TpmLog(run, key), now) + Recent(RefusedLog(run, key), now)
  {
    if run != [] {
      var init, q := run[..|run| - 1], run[|run| - 1];
      RecordedSplits(init, key, rpm, tpm, now);
      RecentAppend(RpmLog(init, key), q.now, now);
      RecentAppend(TpmLog(init, key), q.now, now);
      RecentAppend(RefusedLog(init, key), q.now, now);
    }
  }

  function Monus(a: nat, b: nat): nat {
    if a > b then a - b else 0
  }

  /** The refused requests never fill more than what RPM allows beyond TPM. */
  lemma {:induction false} RefusedAreFew(run: seq<Request>, key: string, rpm: nat, tpm: nat, now: nat)
    requires ClockRuns(run) && FixedLimits(run, key, rpm, tpm) && rpm > 0 && tpm > 0 && Clock(run) <= now
    ensures Recent(RefusedLog(run, key), now) <= Monus(rpm, tpm)
  {
    if run != [] {
      var init, q := run[..|run| - 1], run[|run| - 1];
      if RefusedLog(run, key) == RefusedLog(init, key) {
        RefusedAreFew(init, key, rpm, tpm, now);
      } else {
        RecordedSplits(init, key, rpm, tpm, q.now);
        RecentAppend(RefusedLog(init, key), q.now, now);
        RecentLater(RefusedLog(init, key), q.now, now);
      }
    }
  }

  /** The admitted requests of `key`. */
  function AdmittedLog(run: seq<Request>, key: string): seq<nat> {
    if run == [] then []
    else
      var init, q := run[..|run| - 1], run[|run| - 1];
      if q.key == key && LastReply(run).ok then AdmittedLog(init, key) + [q.now] else AdmittedLog(init, key)
  }

  lemma {:induction false} TpmLogIsAdmitted(run: seq<Request>, key: string, rpm: nat, tpm: nat)
    requires ClockRuns(run) && FixedLimits(run, key, rpm, tpm) && rpm > 0 && tpm > 0
    ensures TpmLog(run, key) == AdmittedLog(run, key)
  {
    if run != [] {
      TpmLogIsAdmitted(run[..|run| - 1], key, rpm, tpm);
      ScriptRefinesNaive(run);
    }
  }

  /** With fixed limits a request is admitted exactly when fewer than the smaller of the two were
      admitted in the last window: requests that TPM refused never cost an admission. */
  lemma AdmittedIffBelowBoth(run: seq<Request>, rpm: nat, tpm: nat)
    requires ClockRuns(run) && run != [] && FixedLimits(run, run[|run| - 1].key, rpm, tpm) && rpm > 0 && tpm > 0
    ensures var (init, q) := (run[..|run| - 1], run[|run| - 1]);
      LastReply(run).ok <==> Recent(AdmittedLog(init, q.key), q.now) < (if rpm < tpm then rpm else tpm)
  {
    var init, q := run[..|run| - 1], run[|run| - 1];
    ScriptRefinesNaive(run);
    TpmLogIsAdmitted(init, q.key, rpm, tpm);
    RecordedSplits(init, q.key, rpm, tpm, q.now);
    RefusedAreFew(init, q.key, rpm, tpm, q.now);
  }

  lemma {:induction false} NextLogs(init: seq<Request>, q: Request)
    requires ClockRuns(init + [q])
    ensures RpmLog(init + [q], q.key) == NaiveLog(RpmLog(init, q.key), q.rpm, q.now)
    ensures TpmLog(init + [q], q.key)
         == if NaivePass(RpmLog(init, q.key), q.rpm, q.now) then NaiveLog(TpmLog(init, q.key), q.tpm, q.now) else TpmLog(init, q.key)
    ensures LastReply(init + [q]) == NaiveReply(init, q)
    ensures AdmittedLog(init + [q], q.key)
         == if NaiveReply(init, q).ok then AdmittedLog(init, q.key) + [q.now] else AdmittedLog(init, q.key)
  {
    assert (init + [q])[..|init|] == init;
    ScriptRefinesNaive(init + [q]);
  }

  lemma FirstOfTwo(key: string)
    ensures var run := [Request(key, 2, 1, 1)];
      RpmLog(run, key) == [1] && TpmLog(run, key) == [1] && AdmittedLog(run, key) == [1]
  {
    var q := Request(key, 2, 1, 1);
    assert [] + [q] == [q] && [] + [1] == [1];
    NextLogs([], q);
  }

  lemma {:induction false} SecondOfTwo(key: string)
    ensures var run := [Request(key, 2, 1, 1)] + [Request(key, 2, 1, 2)];
      && RpmLog(run, key) == [1] + [2] && TpmLog(run, key) == [1] && AdmittedLog(run, key) == [1]
      && !LastReply(run).ok
  {
    FirstOfTwo(key);
    RecentAppend([], 1, 2);
    assert [] + [1] == [1];
    NextLogs([Request(key, 2, 1, 1)], Request(key, 2, 1, 2));
  }

  lemma OneAndTwoAreRecent()
    ensures Recent([1], 3) == 1 && Recent([1] + [2], 3) == 2
  {
    RecentAppend([], 1, 3);
    assert [] + [1] == [1];
    RecentAppend([1], 2, 3);
  }

  lemma {:induction false} ThirdIsRefused(run: seq<Request>, q: Request)
    requires ClockRuns(run + [q]) && RpmLog(run, q.key) == [1] + [2] && q.rpm == 2 && q.now == 3
    ensures !LastReply(run + [q]).ok
  {
    OneAndTwoAreRecent();
    assert !NaivePass(RpmLog(run, q.key), q.rpm, q.now);
    NextLogs(run, q);
  }

  lemma InOrder(a: Request, b: Request, c: Request)
    requires a.now <= b.now <= c.now
    ensures ClockRuns([a] + [b] + [c])
  {
  }

  /** Limits that change can make a refused request cost one: with limits 2 and 1 a second request is
      refused by TPM, and when TPM is raised to 2 the third is refused by RPM, after one admission. */
  lemma {:induction false} ChangedLimitsCostAnAdmission(key: string)
    ensures var run := [Request(key, 2, 1, 1)] + [Request(key, 2, 1, 2)];
      var q := Request(key, 2, 2, 3);
      && ClockRuns(run + [q]) && !LastReply(run).ok
      && Recent(AdmittedLog(run, key), q.now) == 1 && !LastReply(run + [q]).ok
  {
    SecondOfTwo(key);
    OneAndTwoAreRecent();
    InOrder(Request(key, 2, 1, 1), Request(key, 2, 1, 2), Request(key, 2, 2, 3));
    ThirdIsRefused([Request(key, 2, 1, 1)] + [Request(key, 2, 1, 2)], Request(key, 2, 2, 3));
  }

  // ---- the remaining counts ----

  lemma RemainingIs(log: seq<nat>, limit: int, now: nat)
    requires limit > 0 && Recent(log, now) < limit
    ensures NaiveRemaining(log, limit, now) == limit - Recent(log, now) - 1 >= 0
    ensures Recent(NaiveLog(log, limit, now), now) == Recent(log, now) + 1
  {
    RecentAppend(log, now, now);
  }

  /** One limit asked twice at once. */
  lemma LimitCountsDown(log: seq<nat>, limit: int, now: nat)
    requires NaivePass(log, limit, now)
    ensures var (left, next) := (NaiveRemaining(log, limit, now), NaiveLog(log, limit, now));
      && (NaivePass(next, limit, now) <==> left > 0)
      && (limit > 0 ==> left >= 0 && (left > 0 ==> NaiveRemaining(next, limit, now) == left - 1))
      && (limit <= 0 ==> left == UNLIMITED)
  {
    if limit > 0 {
      RemainingIs(log, limit, now);
      if Recent(log, now) + 1 < limit { RemainingIs(NaiveLog(log, limit, now), limit, now); }
    }
  }

  lemma {:induction false} NaiveReplyTwice(run: seq<Request>, q: Request)
    requires ClockRuns(run + [q]) && LastReply(run + [q]).ok
    ensures var (r, t) := (RpmLog(run, q.key), TpmLog(run, q.key));
      && LastReply(run + [q]) == Reply(true, NaiveRemaining(r, q.rpm, q.now), NaiveRemaining(t, q.tpm, q.now))
      && NaivePass(r, q.rpm, q.now) && NaivePass(t, q.tpm, q.now)
      && RpmLog(run + [q], q.key) == NaiveLog(r, q.rpm, q.now) && TpmLog(run + [q], q.key) == NaiveLog(t, q.tpm, q.now)
  {
    NextLogs(run, q);
  }

  /** After an admitted request the same one is admitted again at that moment exactly when both limits
      had some left, and then has one less of each; an unlimited one always has the largest number. */
  lemma {:induction false} RemainingCountsDown(run: seq<Request>, q: Request)
    requires ClockRuns(run + [q]) && ClockRuns(run + [q] + [q]) && LastReply(run + [q]).ok
    ensures var (r, next) := (LastReply(run + [q]), LastReply(run + [q] + [q]));
      && (next.ok <==> r.remainingRPM > 0 && r.remainingTPM > 0)
      && (if q.rpm > 0 then r.remainingRPM >= 0 else r.remainingRPM == UNLIMITED)
      && (if q.tpm > 0 then r.remainingTPM >= 0 else r.remainingTPM == UNLIMITED)
      && (next.ok && q.rpm > 0 ==> next.remainingRPM == r.remainingRPM - 1)
      && (next.ok && q.tpm > 0 ==> next.remainingTPM == r.remainingTPM - 1)
  {
    NaiveReplyTwice(run, q);
    LimitCountsDown(RpmLog(run, q.key), q.rpm, q.now);
    LimitCountsDown(TpmLog(run, q.key), q.tpm, q.now);
    NextLogs(run + [q], q);
  }

  // ---- the code ----

  /** The Redis side of the limiter, changed in place by the script. */
  class RedisSlidingWindow {
    var zsets: map<string, ZSet>
    var serials: map<string, nat>

    function View(): Store
      reads this
    {
      Store(zsets, serials)
    }

    constructor ()
      ensures View() == StoreAfter([])
    {
      zsets, serials := map[], map[];
    }

    /** The Lua function `check`. */
    method CheckKey(k: string, limit: int, now: nat) returns (pass: bool, remaining: int)
      modifies this
      ensures View() == CheckAt(old(View()), k, limit, now).1
      ensures pass == CheckAt(old(View()), k, limit, now).0.pass
      ensures remaining == CheckAt(old(View()), k, limit, now).0.remaining
    {
      if limit <= 0 {
        return true, UNLIMITED;
      }
      var trimmed := Trim(Unexpired(ZSetAt(View(), k), now), now);
      zsets := zsets[k := trimmed];
      var count := |trimmed.members|;
      if count >= limit {
        return false, 0;
      }
      var serial := (if SeqKey(k) in serials then serials[SeqKey(k)] else 0) + 1;
      serials := serials[SeqKey(k) := serial];
      var grown := ZSet(trimmed.members[Member(now, serial) := now], Some(now + EXPIRE_MS));
      zsets := zsets[k := grown];
      assert zsets == old(zsets)[k := grown];
      return true, limit - count - 1;
    }

    method Allow(q: Request) returns (reply: Reply)
      modifies this
      ensures (reply, View()) == Script(old(View()), q)
    {
      var rpmOk, rpmRemaining := CheckKey(RpmKey(q.key), q.rpm, q.now);
      if !rpmOk {
        return REFUSED;
      }
      var tpmOk, tpmRemaining := CheckKey(TpmKey(q.key), q.tpm, q.now);
      if !tpmOk {
        return REFUSED;
      }
      return Reply(true, rpmRemaining, tpmRemaining);
    }
  }
}
