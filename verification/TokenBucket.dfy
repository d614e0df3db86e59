/**
 Per-key token buckets (src/rate-limit/rate-limit.algorithms.ts).

 Tokens are scaled by the window length, so that every quantity is an integer: a full bucket holds
 `limit * windowMs`, one millisecond refills `limit`, and one admission costs `windowMs`.
 */
module TokenBucket {
  import opened Common
  import opened RateLimitTypes

  datatype Bucket = Bucket(tokens: int, lastRefill: int, limit: int, windowMs: int)
  {
    function Capacity(): int {
      limit * windowMs
    }

    // What the bucket holds at `now`, before anything is taken out.
    function Refilled(now: int): int {
      Min(Capacity(), tokens + Max(0, now - lastRefill) * limit)
    }

    predicate Serves(p: Policy) {
      limit == p.limit && windowMs == p.windowMs
    }
  }

  type Buckets = map<string, Bucket>

  function Fresh(p: Policy, now: int): Bucket {
    Bucket(p.limit * p.windowMs, now, p.limit, p.windowMs)
  }

  function Current(bs: Buckets, key: string, p: Policy, now: int): Bucket {
    if key in bs && bs[key].Serves(p) then bs[key] else Fresh(p, now)
  }

  // The bucket after a call at `now`, and the answer to that call.
  function Step(b: Bucket, now: int): (Bucket, Result)
    requires b.limit > 0 && b.windowMs > 0
  {
    var level := b.Refilled(now);
    var allowed := level >= b.windowMs;
    var left := if allowed then level - b.windowMs else level;
    var retry := if allowed then 0 else Max(1, CeilDiv(b.windowMs - left, b.limit));
    var reset := now + CeilDiv(b.Capacity() - left, b.limit);
    (b.(tokens := left, lastRefill := now),
     Result(allowed, b.limit, Max(0, left / b.windowMs), reset, retry))
  }

  function ConsumeStep(bs: Buckets, key: string, p: Policy, now: int): (Buckets, Result)
    requires p.Valid()
  {
    var (b, r) := Step(Current(bs, key, p, now), now);
    (bs[key := b], r)
  }

  function PruneStep(bs: Buckets, olderThan: int): Buckets {
    map k | k in bs && bs[k].lastRefill >= olderThan :: bs[k]
  }

  function Run(run: seq<Event>): Buckets
    requires ValidRun(run)
  {
    if run == [] then map[] else
    var n := |run| - 1;
    var bs := Run(run[..n]);
    match run[n]
    case Consume(key, p, now) => ConsumeStep(bs, key, p, now).0
    case Prune(olderThan) => PruneStep(bs, olderThan)
  }

  /* ---------- The limiter object ---------- */

  class BucketState {
    var tokens: int
    var lastRefill: int
    const limit: int
    const windowMs: int

    constructor (p: Policy, now: int)
      ensures tokens == p.limit * p.windowMs && lastRefill == now
      ensures limit == p.limit && windowMs == p.windowMs
    {
      tokens := p.limit * p.windowMs;
      lastRefill := now;
      limit := p.limit;
      windowMs := p.windowMs;
    }

    function Value(): Bucket
      reads this
    {
      Bucket(tokens, lastRefill, limit, windowMs)
    }

    method Take(now: int) returns (r: Result)
      requires limit > 0 && windowMs > 0
      modifies this
      ensures (Value(), r) == Step(old(Value()), now)
    {
      var elapsed := Max(0, now - lastRefill);
      tokens := Min(limit * windowMs, tokens + elapsed * limit);
      lastRefill := now;

      var allowed := tokens >= windowMs;
      if allowed {
        tokens := tokens - windowMs;
      }
      var retryAfterMs := if allowed then 0 else Max(1, CeilDiv(windowMs - tokens, limit));
      var resetAt := now + CeilDiv(limit * windowMs - tokens, limit);
      r := Result(allowed, limit, Max(0, tokens / windowMs), resetAt, retryAfterMs);
    }
  }

  class TokenBucketRateLimiter {
    var buckets: map<string, BucketState>

    // No two keys share a bucket.
    ghost predicate Valid()
      reads this
    {
      forall j, k :: j in buckets && k in buckets && j != k ==> buckets[j] != buckets[k]
    }

    ghost function Contents(): Buckets
      reads this, buckets.Values
    {
      map k | k in buckets :: buckets[k].Value()
    }

    constructor ()
      ensures Valid() && Contents() == map[]
      ensures fresh(this) && buckets == map[]
    {
      buckets := map[];
    }

    method Consume(key: string, p: Policy, now: int) returns (r: Result)
      requires Valid() && p.Valid()
      modifies this, buckets.Values
      ensures Valid() && fresh(buckets.Values - old(buckets.Values))
      ensures (Contents(), r) == ConsumeStep(old(Contents()), key, p, now)
    {
      hide Step;
      var bucket: BucketState;
      if key in buckets && buckets[key].limit == p.limit && buckets[key].windowMs == p.windowMs {
        bucket := buckets[key];
      } else {
        bucket := new BucketState(p, now);
        buckets := buckets[key := bucket];
      }
      ghost var b := Current(old(Contents()), key, p, now);
      assert bucket.Value() == b;
      r := bucket.Take(now);
      assert forall k :: k in buckets && k != key ==> buckets[k] == old(buckets)[k];
      assert Contents() == old(Contents())[key := bucket.Value()];
    }

    method PruneIdle(olderThan: int)
      requires Valid()
      modifies this
      ensures Valid() && buckets.Values <= old(buckets.Values)
      ensures Contents() == PruneStep(old(Contents()), olderThan)
    {
      var todo := buckets.Keys;
      while todo != {}
        invariant todo <= buckets.Keys <= old(buckets).Keys
        invariant forall k :: k in buckets ==> buckets[k] == old(buckets)[k]
        invariant forall k :: k in old(buckets) && k !in todo ==>
          (k in buckets <==> old(buckets)[k].lastRefill >= olderThan)
      {
        var key :| key in todo;
        todo := todo - {key};
        if buckets[key].lastRefill < olderThan {
          buckets := buckets - {key};
        }
      }
    }
  }

  /* ---------- The greedy policy, without any tokens ---------- */

  // The calls a bucket has answered since it was made, with the decisions.
  datatype Epoch = Epoch(limit: int, windowMs: int, times: seq<int>, admitted: seq<bool>)
  {
    ghost predicate Valid() {
      limit > 0 && windowMs > 0 && |times| == |admitted| > 0
    }

    predicate Serves(p: Policy) {
      limit == p.limit && windowMs == p.windowMs
    }
  }

  // What is refilled between the calls at positions i and j. A clock that steps back refills nothing.
  function Gain(times: seq<int>, limit: int, i: nat, j: nat): int
    requires i <= j < |times|
  {
    if i == j then 0
    else Gain(times, limit, i, j - 1) + Max(0, times[j] - times[j - 1]) * limit
  }

  // What the interval that starts at call i still allows at call j.
  function Budget(e: Epoch, i: nat, j: nat): int
    requires i <= j < |e.times| && j <= |e.admitted|
  {
    e.limit * e.windowMs + Gain(e.times, e.limit, i, j) - e.windowMs * Count(e.admitted, i, j)
  }

  // One more admission at the last call of `e`, the only one not yet decided, keeps every interval
  // that ends there within `limit` plus the refill of that interval.
  predicate Fits(e: Epoch)
    requires |e.times| == |e.admitted| + 1
  {
    var j := |e.admitted|;
    forall i :: 0 <= i <= j ==>
      e.windowMs * (Count(e.admitted, i, j) + 1) <= e.limit * e.windowMs + Gain(e.times, e.limit, i, j)
  }

  // `e` with a new call whose decision is still open.
  function Ask(h: map<string, Epoch>, key: string, p: Policy, now: int): Epoch {
    if key in h && h[key].Serves(p) then h[key].(times := h[key].times + [now])
    else Epoch(p.limit, p.windowMs, [now], [])
  }

  // The history of every key under the greedy policy: admit whenever the admission fits.
  function Greedy(run: seq<Event>): (h: map<string, Epoch>)
    requires ValidRun(run)
    ensures forall k :: k in h ==> h[k].Valid()
  {
    if run == [] then map[] else
    var n := |run| - 1;
    var h := Greedy(run[..n]);
    match run[n]
    case Consume(key, p, now) =>
      var e := Ask(h, key, p, now);
      h[key := e.(admitted := e.admitted + [Fits(e)])]
    case Prune(olderThan) =>
      map k | k in h && h[k].times[|h[k].times| - 1] >= olderThan :: h[k]
  }

  // `level` is the minimum of the budgets of all intervals ending at call j.
  ghost predicate IsLeastBudget(e: Epoch, j: nat, level: int)
    requires j < |e.times| && j <= |e.admitted|
  {
    && (forall i :: 0 <= i <= j ==> level <= Budget(e, i, j))
    && (exists i :: 0 <= i <= j && level == Budget(e, i, j))
  }

  // A bucket agrees with the history of its key.
  ghost predicate Matches(b: Bucket, e: Epoch)
    requires e.Valid()
  {
    var n := |e.times| - 1;
    && b.limit == e.limit && b.windowMs == e.windowMs && b.lastRefill == e.times[n]
    && IsLeastBudget(e, n, b.tokens + if e.admitted[n] then e.windowMs else 0)
  }

  lemma GainAppend(times: seq<int>, t: int, limit: int, i: nat, j: nat)
    requires i <= j < |times|
    ensures Gain(times + [t], limit, i, j) == Gain(times, limit, i, j)
  {
    if i < j {
      GainAppend(times, t, limit, i, j - 1);
    }
  }

  // How budgets move from the last decided call to the next one.
  lemma {:induction false} BudgetNext(e: Epoch, now: int, i: nat)
    requires e.Valid() && i < |e.times|
    ensures
      var n := |e.times| - 1;
      var e' := e.(times := e.times + [now]);
      Budget(e', i, n + 1) ==
        Budget(e, i, n) - (if e.admitted[n] then e.windowMs else 0) + Max(0, now - e.times[n]) * e.limit
  {
    var n := |e.times| - 1;
    GainAppend(e.times, now, e.limit, i, n);
    var c := Count(e.admitted, i, n);
    assert e.windowMs * (c + 1) == e.windowMs * c + e.windowMs;
  }

  // Refilling computes the new minimum.
  lemma RefillIsLeastBudget(b: Bucket, e: Epoch, now: int)
    requires e.Valid() && Matches(b, e)
    ensures IsLeastBudget(e.(times := e.times + [now]), |e.times|, b.Refilled(now))
  {
    var n := |e.times| - 1;
    var e' := e.(times := e.times + [now]);
    var cost := if e.admitted[n] then e.windowMs else 0;
    var gain := Max(0, now - e.times[n]) * e.limit;
    var level := b.Refilled(now);
    var j := n + 1;
    assert Budget(e', j, j) == b.Capacity();
    forall i | 0 <= i <= j
      ensures level <= Budget(e', i, j)
    {
      if i <= n {
        BudgetNext(e, now, i);
        assert b.tokens + cost <= Budget(e, i, n);
      }
    }
    var i :| 0 <= i <= n && b.tokens + cost == Budget(e, i, n);
    BudgetNext(e, now, i);
    assert Budget(e', i, j) == b.tokens + gain;
    assert level == Budget(e', i, j) || level == Budget(e', j, j);
  }

  lemma FitsIffLevel(e: Epoch, level: int)
    requires |e.times| == |e.admitted| + 1
    requires IsLeastBudget(e, |e.admitted|, level)
    ensures Fits(e) <==> level >= e.windowMs
  {
    var j := |e.admitted|;
    forall i | 0 <= i <= j
      ensures e.windowMs * (Count(e.admitted, i, j) + 1) <= e.limit * e.windowMs + Gain(e.times, e.limit, i, j)
        <==> e.windowMs <= Budget(e, i, j)
    {
      var c := Count(e.admitted, i, j);
      assert e.windowMs * (c + 1) == e.windowMs * c + e.windowMs;
    }
  }

  // Deciding the open call does not change any budget that ends there.
  lemma DecideKeepsLevel(e: Epoch, ok: bool, level: int)
    requires |e.times| == |e.admitted| + 1
    requires IsLeastBudget(e, |e.admitted|, level)
    ensures IsLeastBudget(e.(admitted := e.admitted + [ok]), |e.admitted|, level)
  {
    var j := |e.admitted|;
    var e' := e.(admitted := e.admitted + [ok]);
    forall i | 0 <= i <= j
      ensures Budget(e', i, j) == Budget(e, i, j)
    {
      CountAppend(e.admitted, ok, i, j);
    }
    var i :| 0 <= i <= j && level == Budget(e, i, j);
    assert Budget(e', i, j) == level;
  }

  lemma FreshIsLeastBudget(p: Policy, now: int)
    requires p.Valid()
    ensures IsLeastBudget(Epoch(p.limit, p.windowMs, [now], []), 0, Fresh(p, now).Refilled(now))
  {
    var e := Epoch(p.limit, p.windowMs, [now], []);
    assert Budget(e, 0, 0) == p.limit * p.windowMs;
  }

  // Every bucket of a reachable limiter agrees with the greedy history, key by key.
  ghost predicate Agrees(bs: Buckets, h: map<string, Epoch>)
    requires forall k :: k in h ==> h[k].Valid()
  {
    && bs.Keys == h.Keys
    && forall k :: k in bs ==> Matches(bs[k], h[k])
  }

  lemma {:induction false} ConsumeAgrees(bs: Buckets, h: map<string, Epoch>, key: string, p: Policy, now: int)
    requires forall k :: k in h ==> h[k].Valid()
    requires Agrees(bs, h) && p.Valid()
    ensures
      var e := Ask(h, key, p, now);
      var level := Current(bs, key, p, now).Refilled(now);
      && IsLeastBudget(e, |e.admitted|, level)
      && (ConsumeStep(bs, key, p, now).1.allowed <==> Fits(e))
      && Matches(ConsumeStep(bs, key, p, now).0[key], e.(admitted := e.admitted + [Fits(e)]))
  {
    var e := Ask(h, key, p, now);
    var b := Current(bs, key, p, now);
    var level := b.Refilled(now);
    if key in h && h[key].Serves(p) {
      RefillIsLeastBudget(b, h[key], now);
    } else {
      FreshIsLeastBudget(p, now);
    }
    FitsIffLevel(e, level);
    DecideKeepsLevel(e, Fits(e), level);
  }

  lemma {:induction false} RunAgrees(run: seq<Event>)
    requires ValidRun(run)
    ensures Agrees(Run(run), Greedy(run))
  {
    if run != [] {
      var n := |run| - 1;
      RunAgrees(run[..n]);
      if run[n].Consume? {
        ConsumeAgrees(Run(run[..n]), Greedy(run[..n]), run[n].key, run[n].policy, run[n].now);
      }
    }
  }

  /**
   The token bucket is exactly the greedy policy. After any run over any keys, policies and clock,
   the level at a call is the minimum, over the calls since the bucket was made, of the budget of the
   interval starting there; and the call is admitted if and only if the admission fits them all.
   */
  lemma GreedyExact(run: seq<Event>, key: string, p: Policy, now: int)
    requires ValidRun(run) && p.Valid()
    ensures
      var e := Ask(Greedy(run), key, p, now);
      && IsLeastBudget(e, |e.admitted|, Current(Run(run), key, p, now).Refilled(now))
      && (ConsumeStep(Run(run), key, p, now).1.allowed <==> Fits(e))
  {
    RunAgrees(run);
    ConsumeAgrees(Run(run), Greedy(run), key, p, now);
  }

  lemma {:induction false} GainOnMonotoneClock(times: seq<int>, limit: int, i: nat, j: nat)
    requires i <= j < |times|
    requires forall a, b :: i <= a <= b <= j ==> times[a] <= times[b]
    ensures Gain(times, limit, i, j) == (times[j] - times[i]) * limit
  {
    if i < j {
      GainOnMonotoneClock(times, limit, i, j - 1);
      var x, y := times[j - 1] - times[i], times[j] - times[j - 1];
      assert (x + y) * limit == x * limit + y * limit;
    }
  }

  /** While the clock does not step back, the refill of an interval is its length times `limit`. */
  lemma {:induction false} FitsOnMonotoneClock(e: Epoch)
    requires |e.times| == |e.admitted| + 1
    requires forall a, b :: 0 <= a <= b < |e.times| ==> e.times[a] <= e.times[b]
    ensures
      var j := |e.admitted|;
      Fits(e) <==> forall i :: 0 <= i <= j ==>
        e.windowMs * (Count(e.admitted, i, j) + 1) <= e.limit * e.windowMs + (e.times[j] - e.times[i]) * e.limit
  {
    var j := |e.admitted|;
    forall i | 0 <= i <= j
      ensures Gain(e.times, e.limit, i, j) == (e.times[j] - e.times[i]) * e.limit
    {
      GainOnMonotoneClock(e.times, e.limit, i, j);
    }
  }

  /* ---------- Waiting times ---------- */

  // What every bucket of a reachable limiter satisfies.
  ghost predicate Sound(b: Bucket) {
    b.limit > 0 && b.windowMs > 0 && 0 <= b.tokens <= b.Capacity()
  }

  lemma StepSound(b: Bucket, now: int)
    requires Sound(b)
    ensures Sound(Step(b, now).0)
  {
    MulMonotone(0, Max(0, now - b.lastRefill), b.limit);
  }

  lemma {:induction false} RunSound(run: seq<Event>, key: string)
    requires ValidRun(run) && key in Run(run)
    ensures Sound(Run(run)[key])
  {
    var n := |run| - 1;
    var bs := Run(run[..n]);
    if run[n].Consume? && run[n].key == key {
      var p := run[n].policy;
      if key in bs && bs[key].Serves(p) {
        RunSound(run[..n], key);
      } else {
        MulMonotone(0, p.limit, p.windowMs);
      }
      StepSound(Current(bs, key, p, run[n].now), run[n].now);
    } else {
      RunSound(run[..n], key);
    }
  }

  // A bucket refilled to a level below its capacity at a given moment.
  lemma ReachesLevel(b: Bucket, level: int, t: int)
    requires Sound(b) && b.tokens <= level <= b.Capacity() && t >= b.lastRefill
    ensures b.Refilled(t) >= level <==> t >= b.lastRefill + CeilDiv(level - b.tokens, b.limit)
  {
    CeilDivLeast(level - b.tokens, b.limit, t - b.lastRefill);
  }

  /**
   Waiting times are least: after a denial at `now`, a call at any later moment t is admitted if and
   only if t has reached `now + retryAfterMs`.
   */
  lemma RetryIsLeast(b: Bucket, now: int, t: int)
    requires Sound(b) && t >= now
    requires !Step(b, now).1.allowed
    ensures Step(Step(b, now).0, t).1.allowed <==> t >= now + Step(b, now).1.retryAfterMs
  {
    var (b', r) := Step(b, now);
    StepSound(b, now);
    CeilDivLeast(b'.windowMs - b'.tokens, b'.limit, 0);
    MulMonotone(1, b.limit, b.windowMs);
    ReachesLevel(b', b'.windowMs, t);
  }

  // A bucket after a list of later calls, and whether all of them were denied.
  function After(b: Bucket, times: seq<int>): (r: (Bucket, bool))
    requires b.limit > 0 && b.windowMs > 0
    ensures r.0.limit == b.limit && r.0.windowMs == b.windowMs
    decreases |times|
  {
    if times == [] then (b, true) else
    var (b', r) := Step(b, times[0]);
    var (b'', denied) := After(b', times[1..]);
    (b'', !r.allowed && denied)
  }

  // From its last call on, the bucket admits a call exactly when `due` has come.
  ghost predicate Due(b: Bucket, due: int)
    requires b.limit > 0 && b.windowMs > 0
  {
    forall t :: t >= b.lastRefill ==> (Step(b, t).1.allowed <==> t >= due)
  }

  lemma DenialKeepsDue(b: Bucket, due: int, s: int)
    requires Sound(b) && Due(b, due) && b.lastRefill <= s < due
    ensures !Step(b, s).1.allowed && Due(Step(b, s).0, due)
  {
    var b' := Step(b, s).0;
    forall t | t >= s
      ensures Step(b', t).1.allowed == Step(b, t).1.allowed
    {
      var x, y := s - b.lastRefill, t - s;
      assert (x + y) * b.limit == x * b.limit + y * b.limit;
    }
  }

  lemma {:induction false} EarlyCallsKeepDue(b: Bucket, due: int, times: seq<int>)
    requires Sound(b) && Due(b, due)
    requires forall i :: 0 <= i < |times| ==> b.lastRefill <= times[i] < due
    requires forall i, j :: 0 <= i <= j < |times| ==> times[i] <= times[j]
    ensures After(b, times).1 && Due(After(b, times).0, due)
    ensures After(b, times).0.lastRefill == if times == [] then b.lastRefill else times[|times| - 1]
    decreases |times|
  {
    if times != [] {
      DenialKeepsDue(b, due, times[0]);
      StepSound(b, times[0]);
      EarlyCallsKeepDue(Step(b, times[0]).0, due, times[1..]);
    }
  }

  /**
   A client that keeps calling too early is denied each time and is still admitted at the moment
   first announced, and not a millisecond sooner.
   */
  lemma {:induction false} HammeringDoesNotPostpone(b: Bucket, now: int, times: seq<int>, t: int)
    requires Sound(b) && !Step(b, now).1.allowed
    requires forall i :: 0 <= i < |times| ==> now <= times[i] < now + Step(b, now).1.retryAfterMs
    requires forall i, j :: 0 <= i <= j < |times| ==> times[i] <= times[j]
    requires t >= now && forall i :: 0 <= i < |times| ==> times[i] <= t
    ensures
      var (b', r) := Step(b, now);
      var (b'', denied) := After(b', times);
      denied && (Step(b'', t).1.allowed <==> t >= now + r.retryAfterMs)
  {
    var (b', r) := Step(b, now);
    var due := now + r.retryAfterMs;
    StepSound(b, now);
    forall t | t >= now
      ensures Step(b', t).1.allowed <==> t >= due
    {
      RetryIsLeast(b, now, t);
    }
    EarlyCallsKeepDue(b', due, times);
  }

  /** `resetAt` is the first moment at which the bucket, left alone, is full. */
  lemma ResetIsFirstFull(b: Bucket, now: int, t: int)
    requires Sound(b) && t >= now
    ensures
      var (b', r) := Step(b, now);
      b'.Refilled(t) == b'.Capacity() <==> t >= r.resetAt
  {
    StepSound(b, now);
    var (b', r) := Step(b, now);
    ReachesLevel(b', b'.Capacity(), t);
  }

  predicate AllAdmitted(b: Bucket, now: int, n: nat)
    requires b.limit > 0 && b.windowMs > 0
    decreases n
  {
    n == 0 || (Step(b, now).1.allowed && AllAdmitted(Step(b, now).0, now, n - 1))
  }

  lemma {:induction false} BurstNeedsTokens(b: Bucket, now: int, n: nat)
    requires Sound(b) && b.lastRefill == now
    ensures AllAdmitted(b, now, n) <==> n * b.windowMs <= b.tokens
    decreases n
  {
    if n > 0 {
      StepSound(b, now);
      assert b.Refilled(now) == b.tokens;
      assert n * b.windowMs == (n - 1) * b.windowMs + b.windowMs;
      if b.tokens >= b.windowMs {
        BurstNeedsTokens(Step(b, now).0, now, n - 1);
      } else {
        MulMonotone(0, n - 1, b.windowMs);
      }
    }
  }

  /** `remaining` is exactly how many more calls would be admitted at the same instant. */
  lemma RemainingIsExact(b: Bucket, now: int, n: nat)
    requires Sound(b)
    ensures AllAdmitted(Step(b, now).0, now, n) <==> n <= Step(b, now).1.remaining
  {
    var b' := Step(b, now).0;
    StepSound(b, now);
    BurstNeedsTokens(b', now, n);
    FloorIff(n, b'.tokens, b'.windowMs);
    MulMonotone(0, b'.tokens, 1);
    FloorIff(0, b'.tokens, b'.windowMs);
  }

  lemma FloorIff(n: int, a: int, b: int)
    requires b > 0
    ensures n * b <= a <==> n <= a / b
  {
    var q := a / b;
    assert q * b <= a < q * b + b;
    if n <= q {
      MulMonotone(n, q, b);
    } else {
      MulMonotone(q + 1, n, b);
      assert (q + 1) * b == q * b + b;
    }
  }

  /* ---------- Pruning ---------- */

  function Apply(bs: Buckets, e: Event): (Buckets, Option<Result>)
    requires e.Consume? ==> e.policy.Valid()
  {
    match e
    case Consume(key, p, now) => var (bs', r) := ConsumeStep(bs, key, p, now); (bs', Some(r))
    case Prune(olderThan) => (PruneStep(bs, olderThan), None)
  }

  // The answers given along a run, with or without its prune steps taking effect.
  function Answers(bs: Buckets, run: seq<Timed>, pruning: bool): seq<Result>
    requires TimerRun(run)
    decreases |run|
  {
    if run == [] then [] else
    var e := run[0].event;
    if e.Prune? && !pruning then Answers(bs, run[1..], pruning) else
    var (bs', r) := Apply(bs, e);
    (if r.Some? then [r.value] else []) + Answers(bs', run[1..], pruning)
  }

  // `small` is `big` without some buckets that are full again at `now`.
  ghost predicate PrunedFrom(small: Buckets, big: Buckets, now: int) {
    && small.Keys <= big.Keys
    && (forall k :: k in big ==> Sound(big[k]) && big[k].lastRefill <= now)
    && (forall k :: k in small ==> small[k] == big[k])
    && (forall k :: k in big && k !in small ==> now - big[k].lastRefill >= big[k].windowMs)
  }

  // A bucket left alone for a window is as good as new.
  lemma IdleIsFull(b: Bucket, p: Policy, now: int)
    requires Sound(b) && b.Serves(p) && now - b.lastRefill >= b.windowMs
    ensures Step(b, now) == Step(Fresh(p, now), now)
  {
    MulMonotone(b.windowMs, now - b.lastRefill, b.limit);
    assert b.Refilled(now) == b.Capacity();
    assert Fresh(p, now).Refilled(now) == b.Capacity();
  }

  lemma ApplyPruned(small: Buckets, big: Buckets, key: string, p: Policy, now: int)
    requires PrunedFrom(small, big, now) && p.Valid()
    ensures ConsumeStep(small, key, p, now).1 == ConsumeStep(big, key, p, now).1
    ensures PrunedFrom(ConsumeStep(small, key, p, now).0, ConsumeStep(big, key, p, now).0, now)
  {
    var b := Current(big, key, p, now);
    if key in big && key !in small && big[key].Serves(p) {
      IdleIsFull(big[key], p, now);
    }
    MulMonotone(0, p.limit, p.windowMs);
    StepSound(b, now);
  }

  lemma PruneStaysPruned(small: Buckets, big: Buckets, s: int, now: int)
    requires PrunedFrom(small, big, s) && s <= now && forall k :: k in big ==> big[k].windowMs <= MAX_IDLE_MS + 1
    ensures PrunedFrom(small, big, now) && PrunedFrom(PruneStep(small, now - MAX_IDLE_MS), big, now)
  {
  }

  lemma {:induction false} AnswersAgree(small: Buckets, big: Buckets, run: seq<Timed>, now: int)
    requires TimerRun(run) && PrunedFrom(small, big, now)
    requires forall i :: 0 <= i < |run| ==> now <= run[i].now
    requires forall i :: 0 <= i < |run| && run[i].event.Consume? ==> run[i].event.policy.windowMs <= MAX_IDLE_MS + 1
    requires forall k :: k in big ==> big[k].windowMs <= MAX_IDLE_MS + 1
    ensures Answers(small, run, true) == Answers(big, run, false)
    decreases |run|
  {
    if run != [] {
      var t := run[0].now;
      match run[0].event
      case Consume(key, p, _) =>
        ApplyPruned(small, big, key, p, t);
        AnswersAgree(ConsumeStep(small, key, p, t).0, ConsumeStep(big, key, p, t).0, run[1..], t);
      case Prune(olderThan) =>
        AnswersAgree(PruneStep(small, olderThan), big, run[1..], t);
    }
  }

  /**
   Pruning is invisible: while every window is at most MAX_IDLE_MS + 1 long, a limiter pruned at any
   moments gives the same answers as one never pruned.
   */
  lemma {:induction false} PruningIsInvisible(run: seq<Timed>)
    requires TimerRun(run)
    requires forall i :: 0 <= i < |run| && run[i].event.Consume? ==> run[i].event.policy.windowMs <= MAX_IDLE_MS + 1
    ensures Answers(map[], run, true) == Answers(map[], run, false)
  {
    if run != [] {
      AnswersAgree(map[], map[], run, run[0].now);
    }
  }

  // A run that empties a bucket and comes back after a prune.
  function Burst(p: Policy, n: nat): seq<Timed> {
    seq(n, i => Timed(Consume("k", p, 0), 0))
  }

  function Probe(p: Policy): seq<Timed> {
    [Timed(Prune(LATER - MAX_IDLE_MS), LATER), Timed(Consume("k", p, LATER), LATER)]
  }

  // Two answer lists that differ from a run's second event on differ as a whole.
  lemma {:induction false} DifferLater(p: Policy, bs: Buckets, run: seq<Timed>)
    requires p.Valid() && run != [] && run[0] == Timed(Consume("k", p, 0), 0) && TimerRun(run) && TimerRun(run[1..])
    requires
      var bs' := ConsumeStep(bs, "k", p, 0).0;
      Answers(bs', run[1..], true) != Answers(bs', run[1..], false)
    ensures Answers(bs, run, true) != Answers(bs, run, false)
  {
    var (bs', r) := ConsumeStep(bs, "k", p, 0);
    SameHead(r, Answers(bs', run[1..], true), Answers(bs', run[1..], false));
  }

  // The limiter when n calls of the burst are still to come.
  function DuringBurst(p: Policy, n: nat): Buckets {
    if n == p.limit then map[] else map["k" := Bucket(n * p.windowMs, 0, p.limit, p.windowMs)]
  }

  lemma {:induction false} BurstThenProbe(p: Policy, n: nat)
    requires p.Valid() && p.windowMs > MAX_IDLE_MS + 1 && n <= p.limit
    ensures TimerRun(Burst(p, n) + Probe(p))
    ensures Answers(DuringBurst(p, n), Burst(p, n) + Probe(p), true) !=
      Answers(DuringBurst(p, n), Burst(p, n) + Probe(p), false)
    decreases n
  {
    BurstIsTimed(p, n);
    var run := Burst(p, n) + Probe(p);
    if n == 0 {
      assert run == Probe(p);
      ProbeDiffers(p);
      assert DuringBurst(p, 0) == map["k" := Bucket(0, 0, p.limit, p.windowMs)];
    } else {
      BurstShrinks(p, n);
      OneOfBurst(p, n);
      hide Answers, DuringBurst, Burst, Probe, ConsumeStep;
      BurstThenProbe(p, n - 1);
      DifferLater(p, DuringBurst(p, n), run);
    }
  }

  lemma BurstShrinks(p: Policy, n: nat)
    requires n > 0
    ensures
      var run := Burst(p, n) + Probe(p);
      run[0] == Timed(Consume("k", p, 0), 0) && run[1..] == Burst(p, n - 1) + Probe(p)
  {
  }

  lemma BurstIsTimed(p: Policy, n: nat)
    requires p.Valid()
    ensures TimerRun(Burst(p, n) + Probe(p))
  {
  }

  lemma SameHead(r: Result, a: seq<Result>, b: seq<Result>)
    requires a != b
    ensures [r] + a != [r] + b
  {
    assert ([r] + a)[1..] == a && ([r] + b)[1..] == b;
  }

  lemma OneOfBurst(p: Policy, n: nat)
    requires p.Valid() && 0 < n <= p.limit
    ensures ConsumeStep(DuringBurst(p, n), "k", p, 0).0 == DuringBurst(p, n - 1)
  {
    MulMonotone(n, p.limit, p.windowMs);
    MulMonotone(1, n, p.windowMs);
    assert n * p.windowMs - p.windowMs == (n - 1) * p.windowMs;
    assert Current(DuringBurst(p, n), "k", p, 0) == Bucket(n * p.windowMs, 0, p.limit, p.windowMs);
  }

  /** The bound is exact, policy by policy: with a longer window some run shows the difference. */
  lemma PruningInvisibleIff(p: Policy)
    requires p.Valid()
    ensures p.windowMs <= MAX_IDLE_MS + 1 <==>
      forall run: seq<Timed> :: TimerRun(run) && UsesOnly(p, run) ==>
        Answers(map[], run, true) == Answers(map[], run, false)
  {
    if p.windowMs <= MAX_IDLE_MS + 1 {
      forall run: seq<Timed> | TimerRun(run) && UsesOnly(p, run)
        ensures Answers(map[], run, true) == Answers(map[], run, false)
      {
        PruningIsInvisible(run);
      }
    } else {
      BurstThenProbe(p, p.limit);
      assert UsesOnly(p, Burst(p, p.limit) + Probe(p));
    }
  }

  lemma {:induction false} ProbeDiffers(p: Policy)
    requires p.Valid() && p.windowMs > MAX_IDLE_MS + 1
    ensures
      var bs := map["k" := Bucket(0, 0, p.limit, p.windowMs)];
      var a, b := Answers(bs, Probe(p), true), Answers(bs, Probe(p), false);
      |a| == |b| == 1 && a[0] != b[0]
  {
    var empty := Bucket(0, 0, p.limit, p.windowMs);
    var bs := map["k" := empty];
    var probe := Probe(p);
    var last := probe[1..];
    assert last[1..] == [];
    assert PruneStep(bs, LATER - MAX_IDLE_MS) == map[];
    var b0, b1 := Fresh(p, LATER), empty;
    MulMonotone(LATER + 1, p.windowMs, p.limit);
    MulMonotone(1, p.limit, p.windowMs);
    assert b0.Refilled(LATER) == p.limit * p.windowMs;
    assert b1.Refilled(LATER) == LATER * p.limit < p.limit * p.windowMs;
    // Either only one of the two is admitted, or the emptier one is full again later.
    var gap := p.limit * p.windowMs - LATER * p.limit;
    assert gap >= p.limit;
    LargerDeficit(p.windowMs, p.windowMs + gap, p.limit);
    assert Answers(map[], last, true) == [Step(b0, LATER).1];
    assert Answers(bs, last, false) == [Step(b1, LATER).1];
  }

  lemma LargerDeficit(a: int, a': int, b: int)
    requires b > 0 && a' >= a + b
    ensures CeilDiv(a', b) > CeilDiv(a, b)
  {
    var q := CeilDiv(a, b);
    CeilDivLeast(a, b, q - 1);
    CeilDivLeast(a', b, q);
    assert (q - 1) * b == q * b - b;
  }

  /* ---------- The rate bound with pruning ---------- */

  // The limiter after a run, with its prune steps, from the given buckets.
  function Play(bs: Buckets, run: seq<Timed>): Buckets
    requires TimerRun(run)
  {
    if run == [] then bs else Apply(Play(bs, run[..|run| - 1]), run[|run| - 1].event).0
  }

  // How often the key is admitted along that run.
  function Admissions(bs: Buckets, run: seq<Timed>, key: string): nat
    requires TimerRun(run)
  {
    if run == [] then 0 else
    var n := |run| - 1;
    Admissions(bs, run[..n], key) + if Admits(Play(bs, run[..n]), run[n].event, key) then 1 else 0
  }

  predicate Admits(bs: Buckets, e: Event, key: string)
    requires e.Consume? ==> e.policy.Valid()
  {
    e.Consume? && e.key == key && ConsumeStep(bs, key, e.policy, e.now).1.allowed
  }

  lemma PlaySnoc(bs: Buckets, run: seq<Timed>, e: Timed, key: string)
    requires TimerRun(run) && TimerRun(run + [e])
    ensures e.event.Consume? ==> e.event.policy.Valid()
    ensures Play(bs, run + [e]) == Apply(Play(bs, run), e.event).0
    ensures Admissions(bs, run + [e], key) ==
      Admissions(bs, run, key) + if Admits(Play(bs, run), e.event, key) then 1 else 0
  {
    assert (run + [e])[..|run|] == run;
    assert TimerStep((run + [e])[|run|]);
  }

  // What a call of the key would find at `now`; a key without a bucket would find a full one.
  function Level(bs: Buckets, key: string, p: Policy, now: int): int {
    Current(bs, key, p, now).Refilled(now)
  }

  ghost predicate Settled(bs: Buckets, key: string, p: Policy, now: int) {
    p.Valid() && (key in bs ==> bs[key].Serves(p) && Sound(bs[key]) && bs[key].lastRefill <= now)
  }

  lemma LevelRises(bs: Buckets, key: string, p: Policy, s: int, t: int)
    requires Settled(bs, key, p, s) && s <= t
    ensures 0 <= Level(bs, key, p, t) <= Level(bs, key, p, s) + (t - s) * p.limit
    ensures Level(bs, key, p, t) <= p.limit * p.windowMs
  {
    MulMonotone(0, t - s, p.limit);
    MulMonotone(0, p.limit, p.windowMs);
    if key in bs {
      var x, y := s - bs[key].lastRefill, t - s;
      MulMonotone(0, x, p.limit);
      assert (x + y) * p.limit == x * p.limit + y * p.limit;
    }
  }

  lemma ConsumeSpendsLevel(bs: Buckets, key: string, p: Policy, now: int)
    requires Settled(bs, key, p, now)
    ensures
      var (bs', r) := ConsumeStep(bs, key, p, now);
      && Settled(bs', key, p, now)
      && Level(bs', key, p, now) == Level(bs, key, p, now) - if r.allowed then p.windowMs else 0
  {
    LevelRises(bs, key, p, now, now);
    StepSound(Current(bs, key, p, now), now);
  }

  lemma PruneKeepsLevel(bs: Buckets, key: string, p: Policy, now: int)
    requires Settled(bs, key, p, now) && p.windowMs <= MAX_IDLE_MS + 1
    ensures Level(PruneStep(bs, now - MAX_IDLE_MS), key, p, now) == Level(bs, key, p, now)
  {
    if key in bs && bs[key].lastRefill < now - MAX_IDLE_MS {
      MulMonotone(p.windowMs, now - bs[key].lastRefill, p.limit);
    }
  }

  // One event of a run, as the key's level sees it: admissions are paid for.
  lemma ApplySpendsLevel(bs: Buckets, e: Timed, key: string, p: Policy)
    requires TimerStep(e) && KeyUses(e, key, p) && PruneSafe(p, e) && Settled(bs, key, p, e.now)
    ensures Settled(Apply(bs, e.event).0, key, p, e.now)
    ensures Level(Apply(bs, e.event).0, key, p, e.now) ==
      Level(bs, key, p, e.now) - if Admits(bs, e.event, key) then p.windowMs else 0
  {
    if e.event.Prune? {
      PruneKeepsLevel(bs, key, p, e.now);
    } else if e.event.key == key {
      ConsumeSpendsLevel(bs, key, p, e.now);
    }
  }

  lemma {:induction false} AdmissionsSpendLevel(bs: Buckets, run: seq<Timed>, key: string, p: Policy, s: int, t: int)
    requires SteadyKey(run, key, p) && Settled(bs, key, p, s) && s <= t
    requires forall i :: 0 <= i < |run| ==> s <= run[i].now <= t
    ensures Settled(Play(bs, run), key, p, t)
    ensures Admissions(bs, run, key) * p.windowMs + Level(Play(bs, run), key, p, t)
         <= Level(bs, key, p, s) + (t - s) * p.limit
  {
    if run == [] {
      LevelRises(bs, key, p, s, t);
    } else {
      var n := |run| - 1;
      var e, before := run[n], run[..n];
      AdmissionsSpendLevel(bs, before, key, p, s, e.now);
      ApplySpendsLevel(Play(bs, before), e, key, p);
      LevelRises(Play(bs, run), key, p, e.now, t);
      Distribute(e.now - s, t - e.now, p.limit);
      var one := if Admits(Play(bs, before), e.event, key) then 1 else 0;
      assert Admissions(bs, run, key) == Admissions(bs, before, key) + one;
      Distribute(Admissions(bs, before, key), one, p.windowMs);
      assert Play(bs, run) == Apply(Play(bs, before), e.event).0;
    }
  }

  lemma Distribute(x: int, y: int, z: int)
    ensures (x + y) * z == x * z + y * z
  {
  }

  /**
   The rate bound on whole runs: over any stretch of a run, a key that always calls under one policy is
   admitted at most `limit + elapsed * limit / windowMs` times, whatever other keys do and whatever
   is pruned.
   */
  lemma {:induction false} EveryStretchIsBounded(bs: Buckets, run: seq<Timed>, key: string, p: Policy, s: int, t: int)
    requires SteadyKey(run, key, p) && Settled(bs, key, p, s) && s <= t
    requires forall i :: 0 <= i < |run| ==> s <= run[i].now <= t
    ensures Admissions(bs, run, key) * p.windowMs <= p.limit * p.windowMs + (t - s) * p.limit
  {
    AdmissionsSpendLevel(bs, run, key, p, s, t);
    LevelRises(bs, key, p, s, s);
    LevelRises(Play(bs, run), key, p, t, t);
  }

  /* ---------- Waiting times on runs ---------- */

  // The calls of the key in this run all come before `due`.
  ghost predicate Early(run: seq<Timed>, key: string, due: int) {
    forall i :: 0 <= i < |run| && run[i].event.Consume? && run[i].event.key == key ==> run[i].now < due
  }

  // Whether a call of the key would be admitted is the same in both at every moment from s on.
  ghost predicate SameLevels(a: Buckets, b: Buckets, key: string, p: Policy, s: int) {
    forall t :: t >= s ==> Level(a, key, p, t) == Level(b, key, p, t)
  }

  // A call that is denied changes no later level.
  lemma DenialKeepsLevels(bs: Buckets, key: string, p: Policy, now: int)
    requires Settled(bs, key, p, now) && !ConsumeStep(bs, key, p, now).1.allowed
    ensures SameLevels(ConsumeStep(bs, key, p, now).0, bs, key, p, now)
  {
    var b := Current(bs, key, p, now);
    var bs' := ConsumeStep(bs, key, p, now).0;
    LevelRises(bs, key, p, now, now);
    forall t | t >= now
      ensures Level(bs', key, p, t) == Level(bs, key, p, t)
    {
      var x, y := now - b.lastRefill, t - now;
      assert (x + y) * b.limit == x * b.limit + y * b.limit;
      MulMonotone(0, y, b.limit);
      MulMonotone(0, x, b.limit);
    }
  }

  lemma PruneKeepsLevels(bs: Buckets, key: string, p: Policy, now: int)
    requires Settled(bs, key, p, now) && p.windowMs <= MAX_IDLE_MS + 1
    ensures SameLevels(PruneStep(bs, now - MAX_IDLE_MS), bs, key, p, now)
  {
    if key in bs && bs[key].lastRefill < now - MAX_IDLE_MS {
      forall t | t >= now
        ensures Level(bs, key, p, t) == p.limit * p.windowMs
      {
        MulMonotone(p.windowMs, t - bs[key].lastRefill, p.limit);
      }
    }
  }

  // While the key has less than one admission left, nothing that happens changes its later levels.
  lemma {:induction false} EarlyCallsKeepLevels(bs: Buckets, run: seq<Timed>, key: string, p: Policy, s: int, t: int)
    requires SteadyKey(run, key, p) && Settled(bs, key, p, s) && s <= t
    requires forall i :: 0 <= i < |run| ==> s <= run[i].now <= t
    requires forall i :: 0 <= i < |run| && run[i].event.Consume? && run[i].event.key == key ==>
      Level(bs, key, p, run[i].now) < p.windowMs
    ensures Settled(Play(bs, run), key, p, t) && Admissions(bs, run, key) == 0
    ensures SameLevels(Play(bs, run), bs, key, p, t)
  {
    if run != [] {
      var n := |run| - 1;
      var e, before := run[n], run[..n];
      EarlyCallsKeepLevels(bs, before, key, p, s, e.now);
      var mid := Play(bs, before);
      ApplySpendsLevel(mid, e, key, p);
      assert Level(mid, key, p, e.now) == Level(bs, key, p, e.now);
      if e.event.Prune? {
        PruneKeepsLevels(mid, key, p, e.now);
      } else if e.event.key == key {
        assert KeyUses(e, key, p) && TimerStep(e);
        DenialKeepsLevels(mid, key, p, e.now);
      }
    }
  }

  /**
   On every run: after a call denied at `now`, whatever follows (calls of other keys, prune steps, calls of
   the same key that are too early, which are all denied), a call at t is admitted if and only if t has
   reached `now + retryAfterMs`; and `resetAt` is the first moment at which the bucket, left alone, is full.
   */
  lemma {:induction false} WaitingTimesOnRuns(run: seq<Event>, key: string, p: Policy, now: int, more: seq<Timed>,
                                              t: int)
    requires ValidRun(run) && SteadyKey(more, key, p) && t >= now
    requires forall i :: 0 <= i < |more| ==> now <= more[i].now <= t
    ensures
      var (bs, r) := ConsumeStep(Run(run), key, p, now);
      && (!r.allowed && Early(more, key, now + r.retryAfterMs) ==>
            && Admissions(bs, more, key) == 0
            && (ConsumeStep(Play(bs, more), key, p, t).1.allowed <==> t >= now + r.retryAfterMs))
      && (bs[key].Refilled(t) == bs[key].Capacity() <==> t >= r.resetAt)
  {
    var before := Run(run);
    var (bs, r) := ConsumeStep(before, key, p, now);
    if key in before {
      RunSound(run, key);
    }
    CallSettles(before, key, p, now);
    ResetIsFirstFull(Current(before, key, p, now), now, t);
    hide Run;
    if !r.allowed && Early(more, key, now + r.retryAfterMs) {
      LevelReachesDue(before, key, p, now);
      hide ConsumeStep, Level, Settled;
      EarlyCallsKeepLevels(bs, more, key, p, now, t);
      assert Level(Play(bs, more), key, p, t) == Level(bs, key, p, t);
      AdmittedByLevel(Play(bs, more), key, p, t);
    }
  }

  lemma AdmittedByLevel(bs: Buckets, key: string, p: Policy, t: int)
    requires p.Valid()
    ensures ConsumeStep(bs, key, p, t).1.allowed <==> Level(bs, key, p, t) >= p.windowMs
  {
  }

  // Whatever bucket the key had, after a call it serves the policy of the call.
  lemma CallSettles(bs: Buckets, key: string, p: Policy, now: int)
    requires p.Valid() && (key in bs ==> Sound(bs[key]))
    ensures Sound(Current(bs, key, p, now)) && Settled(ConsumeStep(bs, key, p, now).0, key, p, now)
  {
    MulMonotone(0, p.limit, p.windowMs);
    StepSound(Current(bs, key, p, now), now);
  }

  lemma LevelReachesDue(bs: Buckets, key: string, p: Policy, now: int)
    requires p.Valid() && Sound(Current(bs, key, p, now)) && !ConsumeStep(bs, key, p, now).1.allowed
    ensures
      var (after, r) := ConsumeStep(bs, key, p, now);
      forall u :: u >= now ==> (Level(after, key, p, u) >= p.windowMs <==> u >= now + r.retryAfterMs)
  {
    var b := Current(bs, key, p, now);
    var (after, r) := ConsumeStep(bs, key, p, now);
    assert Current(after, key, p, now) == Step(b, now).0;
    forall u | u >= now
      ensures Level(after, key, p, u) >= p.windowMs <==> u >= now + r.retryAfterMs
    {
      RetryIsLeast(b, now, u);
      assert Level(after, key, p, u) == Step(b, now).0.Refilled(u);
    }
  }
}
