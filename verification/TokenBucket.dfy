/**
 The in-memory token-bucket limiter. Tokens and times (in seconds) are reals.
 */
module TokenBucket {
  import opened Basics

  datatype Bucket = Bucket(rpmTokens: real, tpmTokens: real, rpmLastRefill: real, tpmLastRefill: real)

  /** One call of Allow with the clock readings it makes, in order; the first two are made only
      when the bucket is new. */
  datatype Request = Request(key: string, rpm: int, tpm: int, created0: real, created1: real, now: real)

  datatype Reply = Reply(ok: bool, remainingRPM: int, remainingTPM: int)

  const REFUSED := Reply(false, 0, 0)

  function Min(a: real, b: real): real {
    if a <= b then a else b
  }

  /** Tokens per second for a limit per minute. */
  function Rate(limit: int): real {
    limit as real / 60.0
  }

  function Refill(tokens: real, last: real, limit: int, now: real): real {
    Min(limit as real, tokens + (now - last) * Rate(limit))
  }

  function Passes(tokens: real): bool {
    tokens >= 1.0
  }

  function Spent(tokens: real): real {
    if Passes(tokens) then tokens - 1.0 else tokens
  }

  function NewBucket(q: Request): Bucket {
    Bucket(q.rpm as real, q.tpm as real, q.created0, q.created1)
  }

  predicate RpmPasses(b: Bucket, q: Request) {
    q.rpm > 0 ==> Passes(Refill(b.rpmTokens, b.rpmLastRefill, q.rpm, q.now))
  }

  predicate TpmPasses(b: Bucket, q: Request) {
    q.tpm > 0 ==> Passes(Refill(b.tpmTokens, b.tpmLastRefill, q.tpm, q.now))
  }

  function RpmStep(b: Bucket, q: Request): Bucket {
    if q.rpm <= 0 then b
    else b.(rpmTokens := Spent(Refill(b.rpmTokens, b.rpmLastRefill, q.rpm, q.now)), rpmLastRefill := q.now)
  }

  function TpmStep(b: Bucket, q: Request): Bucket {
    if q.tpm <= 0 then b
    else b.(tpmTokens := Spent(Refill(b.tpmTokens, b.tpmLastRefill, q.tpm, q.now)), tpmLastRefill := q.now)
  }

  /** A refusal by RPM leaves the TPM side alone; a refusal by TPM has already spent an RPM token. */
  function BucketStep(b: Bucket, q: Request): Bucket {
    if RpmPasses(b, q) then TpmStep(RpmStep(b, q), q) else RpmStep(b, q)
  }

  function Whole(limit: int, tokens: real): int {
    if limit > 0 then tokens.Floor else 0
  }

  function BucketReply(b: Bucket, q: Request): Reply {
    if RpmPasses(b, q) && TpmPasses(b, q) then
      Reply(true, Whole(q.rpm, BucketStep(b, q).rpmTokens), Whole(q.tpm, BucketStep(b, q).tpmTokens))
    else REFUSED
  }

  predicate Unlimited(q: Request) {
    q.rpm <= 0 && q.tpm <= 0
  }

  // ---- runs ----

  predicate ClockRuns(run: seq<Request>) {
    && (forall i :: 0 <= i < |run| ==> run[i].created0 <= run[i].created1 <= run[i].now)
    && (forall i, j :: 0 <= i < j < |run| ==> run[i].now <= run[j].created0)
  }

  function BucketsAfter(run: seq<Request>): map<string, Bucket> {
    if run == [] then map[]
    else
      var m, q := BucketsAfter(run[..|run| - 1]), run[|run| - 1];
      if Unlimited(q) then m
      else m[q.key := BucketStep(if q.key in m then m[q.key] else NewBucket(q), q)]
  }

  /** The bucket of `key`, computed from that key's own requests only. */
  function BucketOf(run: seq<Request>, key: string): Option<Bucket> {
    if run == [] then None
    else
      var b, q := BucketOf(run[..|run| - 1], key), run[|run| - 1];
      if q.key != key || Unlimited(q) then b
      else Some(BucketStep(if b.Some? then b.value else NewBucket(q), q))
  }

  /** What Allow finds: the key's bucket or a new one. */
  function Found(init: seq<Request>, q: Request): Bucket {
    var b := BucketOf(init, q.key);
    if b.Some? then b.value else NewBucket(q)
  }

  function ReplyTo(init: seq<Request>, q: Request): Reply {
    if Unlimited(q) then Reply(true, 0, 0) else BucketReply(Found(init, q), q)
  }

  /** Requests of one key never touch the bucket of another. */
  lemma {:induction false} KeysAreIsolated(run: seq<Request>, key: string)
    ensures BucketOf(run, key) == if key in BucketsAfter(run) then Some(BucketsAfter(run)[key]) else None
  {
    if run != [] {
      KeysAreIsolated(run[..|run| - 1], key);
    }
  }

  /** How many of the requests run[from..] of `key` were admitted. */
  function Admitted(run: seq<Request>, key: string, from: nat): nat {
    if |run| <= from then 0
    else
      var init, q := run[..|run| - 1], run[|run| - 1];
      Admitted(init, key, from) + (if q.key == key && ReplyTo(init, q).ok then 1 else 0)
  }

  /** The limits of a key may change from request to request, up to a bound. */
  predicate RpmUpTo(run: seq<Request>, key: string, rpm: nat) {
    forall i :: 0 <= i < |run| && run[i].key == key ==> 0 <= run[i].rpm <= rpm
  }

  predicate TpmUpTo(run: seq<Request>, key: string, tpm: nat) {
    forall i :: 0 <= i < |run| && run[i].key == key ==> 0 <= run[i].tpm <= tpm
  }

  // ---- tokens stay in range ----

  lemma RefillInRange(tokens: real, last: real, limit: nat, now: real)
    requires 0.0 <= tokens && last <= now
    ensures 0.0 <= Refill(tokens, last, limit, now) <= limit as real
    ensures 0.0 <= Spent(Refill(tokens, last, limit, now)) <= limit as real
  {
    var gain := (now - last) * Rate(limit);
    Product(now - last, Rate(limit));
    assert Refill(tokens, last, limit, now) == Min(limit as real, tokens + gain);
  }

  lemma Product(a: real, b: real)
    requires a >= 0.0 && b >= 0.0
    ensures a * b >= 0.0
  {
  }

  predicate MeterInRange(tokens: real, last: real, bound: nat, clock: real) {
    0.0 <= tokens <= bound as real && last <= clock
  }

  /** In every run each bucket holds between 0 and the greatest limit of RPM tokens, whatever happens
      to TPM, and was refilled no later than the last request. */
  lemma {:induction false} RpmTokensStayInRange(run: seq<Request>, key: string, rpm: nat)
    requires ClockRuns(run) && RpmUpTo(run, key, rpm)
    ensures BucketOf(run, key).Some? ==>
      run != [] && MeterInRange(BucketOf(run, key).value.rpmTokens, BucketOf(run, key).value.rpmLastRefill, rpm, run[|run| - 1].now)
  {
    if run != [] {
      var init, q := run[..|run| - 1], run[|run| - 1];
      RpmTokensStayInRange(init, key, rpm);
      if q.key == key && q.rpm > 0 {
        var b := Found(init, q);
        RefillInRange(b.rpmTokens, b.rpmLastRefill, q.rpm, q.now);
      }
    }
  }

  lemma {:induction false} TpmTokensStayInRange(run: seq<Request>, key: string, tpm: nat)
    requires ClockRuns(run) && TpmUpTo(run, key, tpm)
    ensures BucketOf(run, key).Some? ==>
      run != [] && MeterInRange(BucketOf(run, key).value.tpmTokens, BucketOf(run, key).value.tpmLastRefill, tpm, run[|run| - 1].now)
  {
    if run != [] {
      var init, q := run[..|run| - 1], run[|run| - 1];
      TpmTokensStayInRange(init, key, tpm);
      if q.key == key && q.tpm > 0 {
        var b := Found(init, q);
        RefillInRange(b.tpmTokens, b.tpmLastRefill, q.tpm, q.now);
      }
    }
  }

  // ---- the admission bound ----

  /** `count` requests passed one meter since time `s`: they and the tokens left over are paid
      for by the initial allowance and the refills since `s`. */
  ghost predicate Paid(tokens: real, last: real, bound: nat, count: nat, s: real) {
    if last < s then count == 0 && tokens <= bound as real
    else tokens + count as real <= Allowance(bound, s, last)
  }

  lemma Distribute(a: real, b: real, c: real)
    ensures (a + b) * c == a * c + b * c
  {
  }

  /** What a meter may admit from time `s` to time `t`. */
  function Allowance(limit: nat, s: real, t: real): real {
    limit as real + (t - s) * Rate(limit)
  }

  lemma AllowanceGrows(limit: nat, s: real, t: real, u: real)
    requires t <= u
    ensures Allowance(limit, s, u) == Allowance(limit, s, t) + (u - t) * Rate(limit) >= Allowance(limit, s, t)
  {
    Distribute(t - s, u - t, Rate(limit));
    assert (t - s) + (u - t) == u - s;
    Product(u - t, Rate(limit));
  }

  lemma AllowanceFrom(limit: nat, s: real, t: real)
    requires s <= t
    ensures Allowance(limit, s, t) >= limit as real
  {
    Product(t - s, Rate(limit));
  }

  lemma RefillGrows(tokens: real, last: real, limit: nat, bound: nat, now: real)
    requires limit <= bound && last <= now
    ensures Refill(tokens, last, limit, now) <= bound as real
    ensures Refill(tokens, last, limit, now) <= tokens + (now - last) * Rate(bound)
  {
    Product(now - last, Rate(bound) - Rate(limit));
    assert (now - last) * Rate(bound) == (now - last) * Rate(limit) + (now - last) * (Rate(bound) - Rate(limit));
  }

  /** What is left and what was admitted add up to no more than the allowance. */
  lemma Sum(left: real, tokens: real, admitted: real, gain: real, before: real, after: real)
    requires left <= tokens + gain && tokens + admitted <= before && after == before + gain
    ensures left + admitted <= after
  {
  }

  lemma RefillPaid(tokens: real, last: real, limit: nat, bound: nat, count: nat, s: real, now: real)
    requires Paid(tokens, last, bound, count, s) && s <= now && last <= now && limit <= bound
    ensures Refill(tokens, last, limit, now) + count as real <= Allowance(bound, s, now)
  {
    var t := Refill(tokens, last, limit, now);
    RefillGrows(tokens, last, limit, bound, now);
    if last < s {
      AllowanceFrom(bound, s, now);
    } else {
      AllowanceGrows(bound, s, last, now);
      Sum(t, tokens, count as real, (now - last) * Rate(bound), Allowance(bound, s, last), Allowance(bound, s, now));
    }
  }

  lemma MeterPaid(tokens: real, last: real, limit: nat, bound: nat, count: nat, s: real, now: real, admitted: bool)
    requires Paid(tokens, last, bound, count, s) && s <= now && last <= now && limit <= bound
    requires admitted ==> Passes(Refill(tokens, last, limit, now))
    ensures Paid(Spent(Refill(tokens, last, limit, now)), now, bound, count + (if admitted then 1 else 0), s)
  {
    RefillPaid(tokens, last, limit, bound, count, s, now);
  }

  lemma StartsPaid(tokens: real, last: real, bound: nat, s: real)
    requires tokens <= bound as real
    ensures Paid(tokens, last, bound, 0, s)
  {
    if last >= s { AllowanceFrom(bound, s, last); }
  }

  lemma PaidBound(tokens: real, last: real, bound: nat, count: nat, s: real, t: real)
    requires Paid(tokens, last, bound, count, s) && tokens >= 0.0 && s <= t && last <= t
    ensures count as real <= Allowance(bound, s, t)
  {
    if last < s {
      assert count as real == 0.0;
      AllowanceFrom(bound, s, t);
    } else {
      assert count as real <= Allowance(bound, s, last);
      AllowanceGrows(bound, s, last, t);
    }
  }

  /** Every request of the key is limited by RPM. */
  predicate RpmLimited(run: seq<Request>, key: string, rpm: nat) {
    forall i :: 0 <= i < |run| && run[i].key == key ==> 0 < run[i].rpm <= rpm
  }

  predicate TpmLimited(run: seq<Request>, key: string, tpm: nat) {
    forall i :: 0 <= i < |run| && run[i].key == key ==> 0 < run[i].tpm <= tpm
  }

  lemma {:induction false} RpmPaid(run: seq<Request>, key: string, rpm: nat, from: nat)
    requires ClockRuns(run) && RpmLimited(run, key, rpm) && from < |run|
    ensures BucketOf(run, key).None? ==> Admitted(run, key, from) == 0
    ensures BucketOf(run, key).Some? ==>
      var b := BucketOf(run, key).value; Paid(b.rpmTokens, b.rpmLastRefill, rpm, Admitted(run, key, from), run[from].now)
  {
    var init, q := run[..|run| - 1], run[|run| - 1];
    var s := run[from].now;
    RpmTokensStayInRange(init, key, rpm);
    if from < |init| {
      RpmPaid(init, key, rpm, from);
    } else if BucketOf(init, key).Some? {
      StartsPaid(BucketOf(init, key).value.rpmTokens, BucketOf(init, key).value.rpmLastRefill, rpm, s);
    }
    if q.key == key {
      var b := Found(init, q);
      if BucketOf(init, key).None? {
        StartsPaid(b.rpmTokens, b.rpmLastRefill, rpm, s);
      }
      MeterPaid(b.rpmTokens, b.rpmLastRefill, q.rpm, rpm, Admitted(init, key, from), s, q.now, ReplyTo(init, q).ok);
    }
  }

  lemma {:induction false} TpmPaid(run: seq<Request>, key: string, tpm: nat, from: nat)
    requires ClockRuns(run) && TpmLimited(run, key, tpm) && from < |run|
    ensures BucketOf(run, key).None? ==> Admitted(run, key, from) == 0
    ensures BucketOf(run, key).Some? ==>
      var b := BucketOf(run, key).value; Paid(b.tpmTokens, b.tpmLastRefill, tpm, Admitted(run, key, from), run[from].now)
  {
    var init, q := run[..|run| - 1], run[|run| - 1];
    var s := run[from].now;
    TpmTokensStayInRange(init, key, tpm);
    if from < |init| {
      TpmPaid(init, key, tpm, from);
    } else if BucketOf(init, key).Some? {
      StartsPaid(BucketOf(init, key).value.tpmTokens, BucketOf(init, key).value.tpmLastRefill, tpm, s);
    }
    if q.key == key {
      var b := Found(init, q);
      if BucketOf(init, key).None? {
        StartsPaid(b.tpmTokens, b.tpmLastRefill, tpm, s);
      }
      if RpmPasses(b, q) {
        MeterPaid(b.tpmTokens, b.tpmLastRefill, q.tpm, tpm, Admitted(init, key, from), s, q.now, ReplyTo(init, q).ok);
      }
    }
  }

  /** Between any request at time s and any later one at time t, a key with limits of at most n per
      minute is admitted at most n + (t - s) * n / 60 times, for either limit. */
  lemma {:induction false} AdmissionBoundRpm(run: seq<Request>, key: string, rpm: nat, from: nat)
    requires ClockRuns(run) && RpmLimited(run, key, rpm) && from < |run|
    ensures Admitted(run, key, from) as real <= Allowance(rpm, run[from].now, run[|run| - 1].now)
  {
    RpmPaid(run, key, rpm, from);
    RpmTokensStayInRange(run, key, rpm);
    var s, t := run[from].now, run[|run| - 1].now;
    match BucketOf(run, key)
    case None => AllowanceFrom(rpm, s, t);
    case Some(b) => PaidBound(b.rpmTokens, b.rpmLastRefill, rpm, Admitted(run, key, from), s, t);
  }

  lemma {:induction false} AdmissionBoundTpm(run: seq<Request>, key: string, tpm: nat, from: nat)
    requires ClockRuns(run) && TpmLimited(run, key, tpm) && from < |run|
    ensures Admitted(run, key, from) as real <= Allowance(tpm, run[from].now, run[|run| - 1].now)
  {
    TpmPaid(run, key, tpm, from);
    TpmTokensStayInRange(run, key, tpm);
    var s, t := run[from].now, run[|run| - 1].now;
    match BucketOf(run, key)
    case None => AllowanceFrom(tpm, s, t);
    case Some(b) => PaidBound(b.tpmTokens, b.tpmLastRefill, tpm, Admitted(run, key, from), s, t);
  }

  // ---- a refusal by TPM spends an RPM token ----

  /** A refused request leaves less than the refilled RPM tokens exactly when RPM passed it and TPM did not. */
  lemma RefusalSpendsRpmIff(b: Bucket, q: Request)
    requires q.rpm > 0
    ensures !BucketReply(b, q).ok && BucketStep(b, q).rpmTokens < Refill(b.rpmTokens, b.rpmLastRefill, q.rpm, q.now)
      <==> RpmPasses(b, q) && !TpmPasses(b, q)
  {
  }

  function At(key: string, now: real): Request {
    Request(key, 2, 1, now, now, now)
  }

  lemma Next(init: seq<Request>, q: Request)
    requires !Unlimited(q)
    ensures BucketOf(init + [q], q.key) == Some(BucketStep(Found(init, q), q))
  {
    assert (init + [q])[..|init|] == init;
  }

  /** That token can be missed: limits 2 and 1, a request at 0 s, two at 59.4 s that TPM refuses, and
      one at 60 s. The last one is refused by RPM, and admitted when the two were never made. */
  lemma RefusalsCostAnAdmission(key: string)
    ensures var early := [At(key, 0.0)];
      var busy := early + [At(key, 59.4)] + [At(key, 59.4)];
      && ClockRuns(busy + [At(key, 60.0)])
      && ReplyTo(early, At(key, 60.0)).ok
      && !ReplyTo(early, At(key, 59.4)).ok && !ReplyTo(early + [At(key, 59.4)], At(key, 59.4)).ok
      && !ReplyTo(busy, At(key, 60.0)).ok
  {
    var early := [At(key, 0.0)];
    assert early == [] + early;
    Next([], At(key, 0.0));
    assert BucketOf(early, key) == Some(Bucket(1.0, 0.0, 0.0, 0.0));
    Next(early, At(key, 59.4));
    assert BucketOf(early + [At(key, 59.4)], key) == Some(Bucket(1.0, 0.99, 59.4, 59.4));
    Next(early + [At(key, 59.4)], At(key, 59.4));
    assert BucketOf(early + [At(key, 59.4)] + [At(key, 59.4)], key) == Some(Bucket(0.0, 0.99, 59.4, 59.4));
  }

  // ---- when such refusals can cost an admission ----

  predicate FixedLimits(run: seq<Request>, key: string, rpm: nat, tpm: nat) {
    forall i :: 0 <= i < |run| && run[i].key == key ==> run[i].rpm == rpm && run[i].tpm == tpm
  }

  predicate TpmRefuses(b: Bucket, q: Request) {
    RpmPasses(b, q) && !TpmPasses(b, q)
  }

  /** The run without the requests of `key` that TPM refused. */
  function Spared(run: seq<Request>, key: string): seq<Request> {
    if run == [] then []
    else
      var init, q := run[..|run| - 1], run[|run| - 1];
      if q.key == key && TpmRefuses(Found(init, q), q) then Spared(init, key) else Spared(init, key) + [q]
  }

  /** Request q is refused after `run`, and admitted when the requests TPM refused were never made. */
  ghost predicate Loses(run: seq<Request>, q: Request, rpm: nat, tpm: nat) {
    && ClockRuns(run + [q]) && FixedLimits(run + [q], q.key, rpm, tpm)
    && !ReplyTo(run, q).ok && ReplyTo(Spared(run, q.key), q).ok
  }

  /** TPM is ahead: at any time it has at least as many tokens as RPM. */
  predicate Ahead(b: Bucket, rpm: nat, tpm: nat) {
    b.tpmLastRefill <= b.rpmLastRefill && b.rpmTokens <= Refill(b.tpmTokens, b.tpmLastRefill, tpm, b.rpmLastRefill)
  }

  /** Refilling in two steps is refilling once. */
  lemma RefillSplits(tokens: real, last: real, limit: nat, mid: real, now: real)
    requires last <= mid <= now
    ensures Refill(tokens, last, limit, now) == Min(limit as real, Refill(tokens, last, limit, mid) + (now - mid) * Rate(limit))
  {
    var gain1, gain2 := (mid - last) * Rate(limit), (now - mid) * Rate(limit);
    Distribute(mid - last, now - mid, Rate(limit));
    assert (mid - last) + (now - mid) == now - last;
    assert (now - last) * Rate(limit) == gain1 + gain2;
    Product(now - mid, Rate(limit));
    MinSplits(tokens + gain1, gain2, limit as real);
  }

  lemma MinSplits(x: real, gain: real, cap: real)
    requires gain >= 0.0
    ensures Min(cap, x + gain) == Min(cap, Min(cap, x) + gain)
  {
  }

  lemma StaysAhead(b: Bucket, rpm: nat, tpm: nat, now: real)
    requires Ahead(b, rpm, tpm) && rpm <= tpm && b.rpmLastRefill <= now
    ensures Refill(b.rpmTokens, b.rpmLastRefill, rpm, now) <= Refill(b.tpmTokens, b.tpmLastRefill, tpm, now)
  {
    RefillGrows(b.rpmTokens, b.rpmLastRefill, rpm, tpm, now);
    RefillSplits(b.tpmTokens, b.tpmLastRefill, tpm, b.rpmLastRefill, now);
  }

  /** The same request with no time passing. */
  lemma NoGain(tokens: real, limit: nat, now: real)
    requires tokens <= limit as real
    ensures Refill(tokens, now, limit, now) == tokens
  {
    assert (now - now) * Rate(limit) == 0.0;
  }

  lemma FullAtFirst(q: Request)
    requires q.rpm > 0 && q.tpm > 0 && q.created0 <= q.created1 <= q.now
    ensures Refill(NewBucket(q).rpmTokens, q.created0, q.rpm, q.now) == q.rpm as real
    ensures Refill(NewBucket(q).tpmTokens, q.created1, q.tpm, q.now) == q.tpm as real
    ensures BucketStep(NewBucket(q), q) == Bucket(q.rpm as real - 1.0, q.tpm as real - 1.0, q.now, q.now)
    ensures BucketReply(NewBucket(q), q).ok
  {
    Product(q.now - q.created0, Rate(q.rpm));
    Product(q.now - q.created1, Rate(q.tpm));
  }

  /** The bucket, if there is one, was last used by `clock`, and TPM is ahead in it. */
  predicate AheadBy(b: Option<Bucket>, rpm: nat, tpm: nat, clock: real) {
    b.Some? ==> Ahead(b.value, rpm, tpm) && b.value.rpmLastRefill <= clock
  }

  lemma KeepsAhead(b: Option<Bucket>, q: Request, clock: real)
    requires 0 < q.rpm <= q.tpm && AheadBy(b, q.rpm, q.tpm, clock) && clock <= q.now
    requires q.created0 <= q.created1 <= q.now
    ensures var found := if b.Some? then b.value else NewBucket(q);
      !TpmRefuses(found, q) && AheadBy(Some(BucketStep(found, q)), q.rpm, q.tpm, q.now)
  {
    if b.Some? {
      AheadStep(b.value, q);
    } else {
      FullAtFirst(q);
      NoGain(q.tpm as real - 1.0, q.tpm, q.now);
    }
  }

  lemma AheadLater(b: Option<Bucket>, rpm: nat, tpm: nat, early: real, late: real)
    requires AheadBy(b, rpm, tpm, early) && early <= late
    ensures AheadBy(b, rpm, tpm, late)
  {
  }

  lemma NextOf(init: seq<Request>, q: Request)
    requires !Unlimited(q)
    ensures BucketOf(init + [q], q.key) == Some(BucketStep(Found(init, q), q))
    ensures Spared(init + [q], q.key)
         == if TpmRefuses(Found(init, q), q) then Spared(init, q.key) else Spared(init, q.key) + [q]
  {
    assert (init + [q])[..|init|] == init;
  }

  lemma AheadNext(init: seq<Request>, q: Request, key: string, rpm: nat, tpm: nat, clock: real)
    requires Spared(init, key) == init && AheadBy(BucketOf(init, key), rpm, tpm, clock) && clock <= q.now
    requires q.created0 <= q.created1 <= q.now && 0 < rpm <= tpm && (q.key == key ==> q.rpm == rpm && q.tpm == tpm)
    ensures Spared(init + [q], key) == init + [q] && AheadBy(BucketOf(init + [q], key), rpm, tpm, q.now)
  {
    if q.key == key {
      KeepsAhead(BucketOf(init, key), q, clock);
      NextOf(init, q);
    } else {
      AheadLater(BucketOf(init, key), rpm, tpm, clock, q.now);
      assert (init + [q])[..|init|] == init;
    }
  }

  function TimeAt(run: seq<Request>, n: nat): real
    requires n <= |run| && run != []
  {
    if n == 0 then run[0].created0 else run[n - 1].now
  }

  lemma TimeGoesOn(run: seq<Request>, n: nat)
    requires ClockRuns(run) && n < |run|
    ensures TimeAt(run, n) <= run[n].created0 <= run[n].created1 <= run[n].now == TimeAt(run, n + 1)
  {
  }

  lemma {:induction false} AheadUpTo(run: seq<Request>, key: string, rpm: nat, tpm: nat, n: nat)
    requires ClockRuns(run) && FixedLimits(run, key, rpm, tpm) && 0 < rpm <= tpm && n <= |run| && run != []
    ensures Spared(run[..n], key) == run[..n] && AheadBy(BucketOf(run[..n], key), rpm, tpm, TimeAt(run, n))
  {
    if n > 0 {
      AheadUpTo(run, key, rpm, tpm, n - 1);
      TimeGoesOn(run, n - 1);
      AheadNext(run[..n - 1], run[n - 1], key, rpm, tpm, TimeAt(run, n - 1));
      assert run[..n] == run[..n - 1] + [run[n - 1]];
    }
  }

  /** When TPM allows at least as much as RPM, it never refuses what RPM passed. */
  lemma {:induction false} TpmNeverRefuses(run: seq<Request>, key: string, rpm: nat, tpm: nat)
    requires ClockRuns(run) && FixedLimits(run, key, rpm, tpm) && 0 < rpm <= tpm
    ensures Spared(run, key) == run
  {
    if run != [] {
      AheadUpTo(run, key, rpm, tpm, |run|);
      assert run[..|run|] == run;
    }
  }

  lemma AheadStep(b: Bucket, q: Request)
    requires 0 < q.rpm <= q.tpm && Ahead(b, q.rpm, q.tpm) && b.rpmLastRefill <= q.now
    ensures !TpmRefuses(b, q) && Ahead(BucketStep(b, q), q.rpm, q.tpm) && BucketStep(b, q).rpmLastRefill == q.now
  {
    StaysAhead(b, q.rpm, q.tpm, q.now);
    if RpmPasses(b, q) {
      NoGain(BucketStep(b, q).tpmTokens, q.tpm, q.now);
    }
  }

  // The run that loses an admission when RPM allows more: one request at 0; when RPM is full again and
  // TPM lacks `e` of a token, as many requests as RPM allows; and one when TPM has its token back.

  lemma Times(rpm: nat, tpm: nat) returns (t1: real, t2: real, e: real)
    requires rpm > tpm > 0
    ensures 0.0 < t1 < t2 && 0.0 < e < 1.0
    ensures t1 * Rate(tpm) == 1.0 - e && t1 * Rate(rpm) >= 1.0
    ensures (t2 - t1) * Rate(tpm) == e && (t2 - t1) * Rate(rpm) < 1.0 && t2 * Rate(tpm) == 1.0
  {
    var p, unit := tpm as real / rpm as real, 60.0 / tpm as real;
    var g := unit * Rate(rpm);
    Ratio(rpm as real, tpm as real);
    Inverse(tpm as real);
    Scaled(rpm as real, tpm as real);
    e := p * (1.0 - p);
    t1, t2 := (1.0 - e) * unit, unit;
    EpsilonInRange(p);
    Regroup(p, g);
    AboveOne(p, g);
    SumAboveTwo(p, g);
    assert e * g == 1.0 - p;
    PartsOf(unit, Rate(tpm), e);
    PartsOf(unit, Rate(rpm), e);
    PositiveParts(unit, e);
  }

  /** Part 1 - e of a time, and the rest of it. */
  lemma PartsOf(unit: real, rate: real, e: real)
    ensures ((1.0 - e) * unit) * rate == unit * rate - e * (unit * rate)
    ensures (unit - (1.0 - e) * unit) * rate == e * (unit * rate)
  {
    assert (1.0 - e) * unit == unit - e * unit;
    assert (unit - e * unit) * rate == unit * rate - (e * unit) * rate;
    assert (e * unit) * rate == e * (unit * rate);
  }

  lemma PositiveParts(unit: real, e: real)
    requires unit > 0.0 && 0.0 < e < 1.0
    ensures 0.0 < (1.0 - e) * unit < unit
  {
    StrictProduct(e, unit);
    StrictProduct(1.0 - e, unit);
    assert (1.0 - e) * unit == unit - e * unit;
  }

  lemma SumAboveTwo(p: real, g: real)
    requires p < 1.0 < g && g * p == 1.0
    ensures g + p >= 2.0
  {
    Product(g - 1.0, 1.0 - p);
    assert (g - 1.0) * (1.0 - p) == g - g * p - 1.0 + p;
  }

  lemma Ratio(a: real, b: real)
    requires a > b > 0.0
    ensures 0.0 < b / a < 1.0
  {
    var r := b / a;
    assert r * a == b;
    if r <= 0.0 { Product(-r, a); }
    if r >= 1.0 { Product(r - 1.0, a); }
  }

  lemma StrictProduct(a: real, b: real)
    requires a > 0.0 && b > 0.0
    ensures a * b > 0.0
  {
  }

  lemma Scaled(a: real, b: real)
    requires a > 0.0 && b > 0.0
    ensures (60.0 / b) * (a / 60.0) * (b / a) == 1.0
  {
    assert (60.0 / b) * (a / 60.0) == a / b;
    assert (a / b) * (b / a) == 1.0;
  }

  lemma EpsilonInRange(p: real)
    requires 0.0 < p < 1.0
    ensures 0.0 < p * (1.0 - p) < 1.0
  {
  }

  lemma Regroup(p: real, g: real)
    ensures p * (1.0 - p) * g == (g * p) * (1.0 - p)
  {
  }

  lemma AboveOne(p: real, g: real)
    requires 0.0 < p < 1.0 && g * p == 1.0
    ensures g > 1.0
  {
    if g <= 1.0 { Product(1.0 - g, p); }
  }

  function Make(key: string, rpm: nat, tpm: nat, t: real): Request {
    Request(key, rpm, tpm, t, t, t)
  }

  /** `base` and k times q. */
  function Then(base: seq<Request>, q: Request, k: nat): seq<Request> {
    if k == 0 then base else Then(base, q, k - 1) + [q]
  }

  lemma {:induction false} ThenShape(base: seq<Request>, q: Request, k: nat)
    requires ClockRuns(base + [q]) && q.created0 == q.created1 == q.now && q.rpm >= 0 && q.tpm >= 0
    requires FixedLimits(base, q.key, q.rpm, q.tpm)
    ensures ClockRuns(Then(base, q, k)) && FixedLimits(Then(base, q, k), q.key, q.rpm, q.tpm)
    ensures forall i :: 0 <= i < |Then(base, q, k)| ==> Then(base, q, k)[i].now <= q.now
  {
    if k == 0 {
      assert forall i :: 0 <= i < |base| ==> (base + [q])[i] == base[i];
      assert (base + [q])[|base|] == q;
    } else {
      ThenShape(base, q, k - 1);
    }
  }

  /** A request with no time passing since the last. */
  lemma StepAtOnce(r: real, x: real, q: Request)
    requires q.rpm > 0 && q.tpm > 0 && 1.0 <= r <= q.rpm as real && x <= q.tpm as real
    ensures var b := Bucket(r, x, q.now, q.now);
      && BucketStep(b, q) == Bucket(r - 1.0, if x >= 1.0 then x - 1.0 else x, q.now, q.now)
      && (TpmRefuses(b, q) <==> x < 1.0)
  {
    NoGain(r, q.rpm, q.now);
    NoGain(x, q.tpm, q.now);
  }

  lemma NextAtOnce(base: seq<Request>, q: Request, r: real, x: real)
    requires q.rpm > 0 && q.tpm > 0 && 1.0 <= r <= q.rpm as real && x <= q.tpm as real
    requires BucketOf(base, q.key) == Some(Bucket(r, x, q.now, q.now))
    ensures BucketOf(base + [q], q.key) == Some(Bucket(r - 1.0, if x >= 1.0 then x - 1.0 else x, q.now, q.now))
    ensures Spared(base + [q], q.key) == if x < 1.0 then Spared(base, q.key) else Spared(base, q.key) + [q]
  {
    StepAtOnce(r, x, q);
    NextOf(base, q);
  }

  /** r less k. */
  function Less(r: real, k: nat): real {
    if k == 0 then r else Less(r, k - 1) - 1.0
  }

  lemma {:induction false} LessIs(r: real, k: nat)
    ensures Less(r, k) == r - k as real
  {
    if k > 0 { LessIs(r, k - 1); }
  }

  /** What the bucket and the spared run are after `run`. */
  predicate Leaves(run: seq<Request>, q: Request, r: real, x: real, spared: seq<Request>) {
    BucketOf(run, q.key) == Some(Bucket(r, x, q.now, q.now)) && Spared(run, q.key) == spared
  }

  lemma LeavesNext(run: seq<Request>, q: Request, r: real, x: real, spared: seq<Request>)
    requires q.rpm > 0 && q.tpm > 0 && 1.0 <= r <= q.rpm as real && x <= q.tpm as real
    requires Leaves(run, q, r, x, spared)
    ensures if x < 1.0 then Leaves(run + [q], q, r - 1.0, x, spared) else Leaves(run + [q], q, r - 1.0, x - 1.0, spared + [q])
  {
    NextAtOnce(run, q, r, x);
  }

  lemma LessBelow(r: real, k: nat)
    ensures Less(r, k) <= r
  {
    LessIs(r, k);
  }

  /** Requests at one instant spend both tokens as long as TPM has one. */
  lemma {:induction false} AdmittedAtOnce(base: seq<Request>, q: Request, r: real, x: real, spared: seq<Request>, k: nat)
    requires q.rpm > 0 && q.tpm > 0 && 0.0 <= Less(r, k) && r <= q.rpm as real && 0.0 <= Less(x, k) && x <= q.tpm as real
    requires Leaves(base, q, r, x, spared)
    ensures Leaves(Then(base, q, k), q, Less(r, k), Less(x, k), Then(spared, q, k))
  {
    if k > 0 {
      AdmittedAtOnce(base, q, r, x, spared, k - 1);
      LessBelow(r, k - 1);
      LessBelow(x, k - 1);
      LeavesNext(Then(base, q, k - 1), q, Less(r, k - 1), Less(x, k - 1), Then(spared, q, k - 1));
    }
  }

  /** And only RPM tokens when it has none. */
  lemma {:induction false} RefusedAtOnce(base: seq<Request>, q: Request, r: real, x: real, spared: seq<Request>, k: nat)
    requires q.rpm > 0 && q.tpm > 0 && 0.0 <= Less(r, k) && r <= q.rpm as real && x < 1.0
    requires Leaves(base, q, r, x, spared)
    ensures Leaves(Then(base, q, k), q, Less(r, k), x, spared)
  {
    if k > 0 {
      RefusedAtOnce(base, q, r, x, spared, k - 1);
      LessBelow(r, k - 1);
      LeavesNext(Then(base, q, k - 1), q, Less(r, k - 1), x, spared);
    }
  }

  /** At time t RPM is full again and TPM lacks `e` of a token. */
  lemma SecondStep(rpm: nat, tpm: nat, t: real, e: real, q: Request)
    requires rpm > tpm > 0 && 0.0 < e < 1.0 && t * Rate(tpm) == 1.0 - e && t * Rate(rpm) >= 1.0
    requires q.rpm == rpm && q.tpm == tpm && q.now == t
    ensures var (b, x) := (Bucket(rpm as real - 1.0, tpm as real - 1.0, 0.0, 0.0), tpm as real - e);
      && BucketStep(b, q) == Bucket(rpm as real - 1.0, if tpm > 1 then x - 1.0 else x, t, t)
      && (TpmRefuses(b, q) <==> tpm == 1)
  {
    assert t - 0.0 == t;
    assert Refill(rpm as real - 1.0, 0.0, rpm, t) == rpm as real;
    assert Refill(tpm as real - 1.0, 0.0, tpm, t) == tpm as real - e;
  }

  lemma FirstOne(q0: Request)
    requires q0.rpm > 0 && q0.tpm > 0 && q0.created0 <= q0.created1 <= q0.now
    ensures BucketOf([q0], q0.key) == Some(Bucket(q0.rpm as real - 1.0, q0.tpm as real - 1.0, q0.now, q0.now))
    ensures Spared([q0], q0.key) == [q0]
  {
    assert [q0] == [] + [q0];
    FullAtFirst(q0);
    NextOf([], q0);
  }

  lemma FirstTwo(key: string, rpm: nat, tpm: nat, t: real, e: real) returns (run: seq<Request>)
    requires rpm > tpm > 0 && 0.0 < e < 1.0 && t > 0.0 && t * Rate(tpm) == 1.0 - e && t * Rate(rpm) >= 1.0
    ensures var (q0, q, x) := (Make(key, rpm, tpm, 0.0), Make(key, rpm, tpm, t), tpm as real - e);
      && run == [q0] + [q]
      && BucketOf([q0], key) == Some(Bucket(rpm as real - 1.0, tpm as real - 1.0, 0.0, 0.0)) && Spared([q0], key) == [q0]
      && BucketOf(run, key) == Some(Bucket(rpm as real - 1.0, if tpm > 1 then x - 1.0 else x, t, t))
      && Spared(run, key) == if tpm > 1 then run else [q0]
  {
    var q0, q := Make(key, rpm, tpm, 0.0), Make(key, rpm, tpm, t);
    FirstOne(q0);
    SecondStep(rpm, tpm, t, e, q);
    NextOf([q0], q);
    run := [q0] + [q];
  }

  /** The last requests that TPM admits, and those it refuses until RPM has nothing left. */
  lemma Drain(start: seq<Request>, q: Request, r: real, x: real, spared: seq<Request>, admitted: nat, refused: nat, left: real, part: real)
    returns (run: seq<Request>)
    requires q.rpm > 0 && q.tpm > 0 && 0.0 <= left <= r <= q.rpm as real && 0.0 <= part < 1.0 && x <= q.tpm as real
    requires Less(r, admitted) == left && Less(left, refused) == 0.0 && Less(x, admitted) == part
    requires Leaves(start, q, r, x, spared)
    requires ClockRuns(start + [q]) && q.created0 == q.created1 == q.now && FixedLimits(start, q.key, q.rpm, q.tpm)
    ensures Leaves(run, q, 0.0, part, Then(spared, q, admitted))
    ensures ClockRuns(run + [q]) && FixedLimits(run, q.key, q.rpm, q.tpm)
  {
    var full := Then(start, q, admitted);
    AdmittedAtOnce(start, q, r, x, spared, admitted);
    ThenShape(start, q, admitted);
    RefusedAtOnce(full, q, left, part, Then(spared, q, admitted), refused);
    ThenShape(full, q, refused);
    run := Then(full, q, refused);
  }

  lemma LastRefused(q: Request, t: real, e: real)
    requires q.rpm > 0 && (q.now - t) * Rate(q.rpm) < 1.0
    ensures !BucketReply(Bucket(0.0, 1.0 - e, t, t), q).ok
  {
    assert Refill(0.0, t, q.rpm, q.now) < 1.0;
  }

  lemma LastAdmitted(q: Request, r: real, t: real, e: real)
    requires q.rpm > 0 && q.tpm > 0 && r >= 1.0 && t < q.now && (q.now - t) * Rate(q.tpm) == e
    ensures BucketReply(Bucket(r, 1.0 - e, t, t), q).ok
  {
    LastRefill(r, t, q.rpm, q.now);
    assert Refill(1.0 - e, t, q.tpm, q.now) == 1.0;
  }

  /** At the next request the bucket that made all refuses and the spared one admits. */
  lemma {:induction false} Parts(run: seq<Request>, q: Request, last: Request, spared: seq<Request>, spare: Bucket, e: real)
    requires Leaves(run, q, 0.0, 1.0 - e, spared) && BucketOf(spared, q.key) == Some(spare)
    requires last.key == q.key && last.rpm == q.rpm > 0 && last.tpm == q.tpm > 0
    requires ClockRuns(run + [q]) && q.now <= last.created0 <= last.created1 <= last.now && FixedLimits(run, q.key, q.rpm, q.tpm)
    requires !BucketReply(Bucket(0.0, 1.0 - e, q.now, q.now), last).ok && BucketReply(spare, last).ok
    ensures Loses(run, last, q.rpm, q.tpm)
  {
    assert forall i :: 0 <= i < |run| ==> (run + [q])[i] == run[i];
    assert (run + [q])[|run|] == q;
  }

  /** With a TPM limit of one all but the first request are refused. */
  lemma LoseWithOne(start: seq<Request>, q: Request, q0: Request, last: Request, refused: nat, spare: Bucket, e: real)
    requires q.rpm > 0 && q.tpm > 0 && 0.0 < e < 1.0 && refused as real <= q.rpm as real
    requires Leaves(start, q, refused as real, 1.0 - e, [q0]) && BucketOf([q0], q.key) == Some(spare)
    requires ClockRuns(start + [q]) && q.created0 == q.created1 == q.now && FixedLimits(start, q.key, q.rpm, q.tpm)
    requires last.key == q.key && last.rpm == q.rpm && last.tpm == q.tpm
    requires q.now <= last.created0 <= last.created1 <= last.now
    requires !BucketReply(Bucket(0.0, 1.0 - e, q.now, q.now), last).ok && BucketReply(spare, last).ok
    ensures exists run :: Loses(run, last, q.rpm, q.tpm)
  {
    LessIs(refused as real, refused);
    var run := Drain(start, q, refused as real, 1.0 - e, [q0], 0, refused, refused as real, 1.0 - e);
    Parts(run, q, last, [q0], spare, e);
  }

  lemma LoseWithMore(start: seq<Request>, q: Request, last: Request, r: real, x: real, admitted: nat, refused: nat, left: real, e: real)
    requires q.rpm > 0 && q.tpm > 0 && 0.0 < e < 1.0 && 0.0 <= left <= r <= q.rpm as real && x <= q.tpm as real
    requires Less(r, admitted) == left && Less(left, refused) == 0.0 && Less(x, admitted) == 1.0 - e
    requires Leaves(start, q, r, x, start)
    requires ClockRuns(start + [q]) && q.created0 == q.created1 == q.now && FixedLimits(start, q.key, q.rpm, q.tpm)
    requires last.key == q.key && last.rpm == q.rpm && last.tpm == q.tpm
    requires q.now <= last.created0 <= last.created1 <= last.now
    requires !BucketReply(Bucket(0.0, 1.0 - e, q.now, q.now), last).ok
    requires BucketReply(Bucket(left, 1.0 - e, q.now, q.now), last).ok
    ensures exists run :: Loses(run, last, q.rpm, q.tpm)
  {
    var run := Drain(start, q, r, x, start, admitted, refused, left, 1.0 - e);
    AdmittedAtOnce(start, q, r, x, start, admitted);
    Parts(run, q, last, Then(start, q, admitted), Bucket(left, 1.0 - e, q.now, q.now), e);
  }

  lemma LastWithOne(key: string, rpm: nat, t1: real, t2: real, e: real)
    requires rpm > 1 && 0.0 < e < 1.0 && 0.0 < t1 < t2
    requires t1 * Rate(1) == 1.0 - e && t1 * Rate(rpm) >= 1.0 && (t2 - t1) * Rate(rpm) < 1.0 && t2 * Rate(1) == 1.0
    ensures exists run :: Loses(run, Make(key, rpm, 1, t2), rpm, 1)
  {
    var last, spare := Make(key, rpm, 1, t2), Bucket(rpm as real - 1.0, 0.0, 0.0, 0.0);
    var start := FirstTwo(key, rpm, 1, t1, e);
    LastRefused(last, t1, e);
    assert t2 - 0.0 == t2;
    LastAdmitted(last, rpm as real - 1.0, 0.0, 1.0);
    LoseWithOne(start, Make(key, rpm, 1, t1), Make(key, rpm, 1, 0.0), last, rpm - 1, spare, e);
  }

  lemma LastWithMore(key: string, rpm: nat, tpm: nat, t1: real, t2: real, e: real)
    requires rpm > tpm > 1 && 0.0 < e < 1.0 && 0.0 < t1 < t2
    requires t1 * Rate(tpm) == 1.0 - e && t1 * Rate(rpm) >= 1.0
    requires (t2 - t1) * Rate(tpm) == e && (t2 - t1) * Rate(rpm) < 1.0
    ensures exists run :: Loses(run, Make(key, rpm, tpm, t2), rpm, tpm)
  {
    var last := Make(key, rpm, tpm, t2);
    var start := FirstTwo(key, rpm, tpm, t1, e);
    var r, x, left := rpm as real - 1.0, tpm as real - e - 1.0, (rpm - tpm + 1) as real;
    LessIs(r, tpm - 2);
    LessIs(x, tpm - 2);
    LessIs(left, rpm - tpm + 1);
    LastRefused(last, t1, e);
    LastAdmitted(last, left, t1, e);
    LoseWithMore(start, Make(key, rpm, tpm, t1), last, r, x, tpm - 2, rpm - tpm + 1, left, e);
  }

  lemma LastRefill(tokens: real, last: real, limit: nat, now: real)
    requires 1.0 <= tokens && limit > 0 && last <= now
    ensures Passes(Refill(tokens, last, limit, now))
  {
    Product(now - last, Rate(limit));
  }

  /** With fixed limits the requests that TPM refuses can cost a later one its admission exactly when
      RPM allows more than TPM. */
  lemma RefusalsCanCostIff(key: string, rpm: nat, tpm: nat)
    requires rpm > 0 && tpm > 0
    ensures (exists run: seq<Request>, q: Request :: q.key == key && Loses(run, q, rpm, tpm)) <==> rpm > tpm
  {
    if rpm > tpm {
      var t1, t2, e := Times(rpm, tpm);
      if tpm == 1 {
        LastWithOne(key, rpm, t1, t2, e);
      } else {
        LastWithMore(key, rpm, tpm, t1, t2, e);
      }
    } else {
      forall run: seq<Request>, q: Request | q.key == key ensures !Loses(run, q, rpm, tpm) {
        if ClockRuns(run + [q]) && FixedLimits(run + [q], key, rpm, tpm) {
          assert forall i :: 0 <= i < |run| ==> run[i] == (run + [q])[i];
          TpmNeverRefuses(run, key, rpm, tpm);
        }
      }
    }
  }

  // ---- the remaining counts ----

  /** One meter asked twice at once. */
  lemma MeterCountsDown(tokens: real, last: real, limit: nat, now: real)
    requires Passes(Refill(tokens, last, limit, now))
    ensures var left := Spent(Refill(tokens, last, limit, now));
      && left.Floor >= 0
      && Refill(left, now, limit, now) == left
      && (Passes(left) <==> left.Floor > 0)
      && (Passes(left) ==> Spent(left).Floor == left.Floor - 1)
  {
    NoGain(Spent(Refill(tokens, last, limit, now)), limit, now);
  }

  /** After an admitted request the same one is admitted again at that moment exactly when each limit
      there is had some left, and then has one less of it. */
  lemma RemainingCountsDown(run: seq<Request>, q: Request)
    requires !Unlimited(q) && ReplyTo(run, q).ok
    ensures var (r, next) := (ReplyTo(run, q), ReplyTo(run + [q], q));
      && (next.ok <==> (q.rpm > 0 ==> r.remainingRPM > 0) && (q.tpm > 0 ==> r.remainingTPM > 0))
      && (if q.rpm > 0 then r.remainingRPM >= 0 else r.remainingRPM == 0)
      && (if q.tpm > 0 then r.remainingTPM >= 0 else r.remainingTPM == 0)
      && (next.ok && q.rpm > 0 ==> next.remainingRPM == r.remainingRPM - 1)
      && (next.ok && q.tpm > 0 ==> next.remainingTPM == r.remainingTPM - 1)
  {
    var b := Found(run, q);
    Next(run, q);
    if q.rpm > 0 { MeterCountsDown(b.rpmTokens, b.rpmLastRefill, q.rpm, q.now); }
    if q.tpm > 0 { MeterCountsDown(b.tpmTokens, b.tpmLastRefill, q.tpm, q.now); }
  }

  // ---- the limiter does not starve ----

  /** A request made at least 60/n seconds after both meters were last refilled is admitted. */
  lemma RestedRequestIsAdmitted(run: seq<Request>, q: Request, rpm: nat, tpm: nat)
    requires ClockRuns(run + [q]) && RpmUpTo(run, q.key, rpm) && TpmUpTo(run, q.key, tpm) && q.rpm >= 0 && q.tpm >= 0
    requires BucketOf(run, q.key).Some? ==>
      var b := BucketOf(run, q.key).value;
      && (q.rpm > 0 ==> b.rpmLastRefill + 60.0 / q.rpm as real <= q.now)
      && (q.tpm > 0 ==> b.tpmLastRefill + 60.0 / q.tpm as real <= q.now)
    ensures ReplyTo(run, q).ok
  {
    var all := run + [q];
    assert all[|run|] == q;
    assert forall i :: 0 <= i < |run| ==> run[i] == all[i];
    RpmTokensStayInRange(run, q.key, rpm);
    TpmTokensStayInRange(run, q.key, tpm);
    if !Unlimited(q) {
      var b := Found(run, q);
      if BucketOf(run, q.key).Some? {
        if q.rpm > 0 { OneTokenBack(b.rpmTokens, b.rpmLastRefill, q.rpm, q.now); }
        if q.tpm > 0 { OneTokenBack(b.tpmTokens, b.tpmLastRefill, q.tpm, q.now); }
      } else {
        Product(q.now - b.rpmLastRefill, Rate(q.rpm));
        Product(q.now - b.tpmLastRefill, Rate(q.tpm));
      }
    }
  }

  lemma OneTokenBack(tokens: real, last: real, limit: nat, now: real)
    requires limit > 0 && tokens >= 0.0 && last + 60.0 / limit as real <= now
    ensures Passes(Refill(tokens, last, limit, now))
  {
    var gap := now - last - 60.0 / limit as real;
    Product(gap, Rate(limit));
    Inverse(limit as real);
    assert (now - last) * Rate(limit) == (60.0 / limit as real) * Rate(limit) + gap * Rate(limit);
  }

  lemma Inverse(n: real)
    requires n > 0.0
    ensures (60.0 / n) * (n / 60.0) == 1.0
  {
  }

  // ---- the code ----

  class MemoryTokenBucket {
    var buckets: map<string, Bucket>
    ghost var run: seq<Request>

    ghost predicate Valid()
      reads this
    {
      buckets == BucketsAfter(run)
    }

    constructor ()
      ensures Valid() && run == []
    {
      buckets, run := map[], [];
    }

    method Allow(q: Request) returns (reply: Reply)
      requires Valid()
      modifies this
      ensures Valid() && run == old(run) + [q]
      ensures reply == ReplyTo(old(run), q)
    {
      assert (run + [q])[..|run|] == run;
      KeysAreIsolated(run, q.key);
      ghost var before := run;
      run := run + [q];
      if q.rpm <= 0 && q.tpm <= 0 {
        return Reply(true, 0, 0);
      }
      var b := if q.key in buckets then buckets[q.key]
               else Bucket(q.rpm as real, q.tpm as real, q.created0, q.created1);
      var remainingRPM, remainingTPM := 0, 0;
      if q.rpm > 0 {
        var tokens := Refill(b.rpmTokens, b.rpmLastRefill, q.rpm, q.now);
        b := b.(rpmTokens := tokens, rpmLastRefill := q.now);
        if tokens < 1.0 {
          buckets := buckets[q.key := b];
          return REFUSED;
        }
        b := b.(rpmTokens := tokens - 1.0);
        remainingRPM := b.rpmTokens.Floor;
      }
      if q.tpm > 0 {
        var tokens := Refill(b.tpmTokens, b.tpmLastRefill, q.tpm, q.now);
        b := b.(tpmTokens := tokens, tpmLastRefill := q.now);
        if tokens < 1.0 {
          buckets := buckets[q.key := b];
          return REFUSED;
        }
        b := b.(tpmTokens := tokens - 1.0);
        remainingTPM := b.tpmTokens.Floor;
      }
      buckets := buckets[q.key := b];
      return Reply(true, remainingRPM, remainingTPM);
    }
  }
}
