/** The vocabulary shared by the two rate-limiting algorithms and the service that composes them. */
module RateLimitTypes {
  // How long a key may stay idle before the service's timer prunes it: one hour.
  const MAX_IDLE_MS := 60 * 60 * 1000

  datatype Algorithm = TokenBucket | SlidingWindow

  datatype Policy = Policy(limit: int, windowMs: int, algorithm: Algorithm)
  {
    // What the configuration loader guarantees of every policy it produces.
    predicate Valid() {
      limit > 0 && windowMs > 0
    }
  }

  datatype Result = Result(allowed: bool, limit: int, remaining: int, resetAt: int, retryAfterMs: int)

  // What can happen to a limiter: a call for a key, or the timer dropping idle keys.
  datatype Event =
    | Consume(key: string, policy: Policy, now: int)
    | Prune(olderThan: int)

  ghost predicate ValidRun(run: seq<Event>) {
    forall i :: 0 <= i < |run| && run[i].Consume? ==> run[i].policy.Valid()
  }

  // `Math.ceil(a / b)` on exact rationals.
  function CeilDiv(a: int, b: int): int
    requires b > 0
  {
    (a + b - 1) / b
  }

  /** `CeilDiv(a, b)` is the least integer whose product with `b` reaches `a`. */
  lemma CeilDivLeast(a: int, b: int, t: int)
    requires b > 0
    ensures t >= CeilDiv(a, b) <==> t * b >= a
  {
    var q := CeilDiv(a, b);
    assert q * b <= a + b - 1 < q * b + b;
    if t >= q {
      MulMonotone(q, t, b);
    } else {
      MulMonotone(t, q - 1, b);
      assert (q - 1) * b == q * b - b;
    }
  }

  lemma MulMonotone(a: int, b: int, c: int)
    requires a <= b && c >= 0
    ensures a * c <= b * c
  {
    assert (b - a) * c >= 0;
  }

  // How many entries of a decision log are admissions, from position i up to but not including j.
  function Count(admitted: seq<bool>, i: nat, j: nat): (n: nat)
    requires i <= j <= |admitted|
    ensures n <= j - i
  {
    if i == j then 0 else Count(admitted, i, j - 1) + if admitted[j - 1] then 1 else 0
  }

  lemma CountAppend(admitted: seq<bool>, ok: bool, i: nat, j: nat)
    requires i <= j <= |admitted|
    ensures Count(admitted + [ok], i, j) == Count(admitted, i, j)
  {
    if i < j {
      CountAppend(admitted, ok, i, j - 1);
    }
  }

  // A run on a clock that does not step back, pruned as the service's timer prunes: at the moment
  // `now`, with the cutoff `now - MAX_IDLE_MS`.
  datatype Timed = Timed(event: Event, now: int)

  ghost predicate TimerStep(e: Timed) {
    match e.event
    case Consume(_, p, now) => p.Valid() && now == e.now
    case Prune(olderThan) => olderThan == e.now - MAX_IDLE_MS
  }

  ghost predicate TimerRun(run: seq<Timed>) {
    && (forall i :: 0 <= i < |run| ==> TimerStep(run[i]))
    && (forall i, j :: 0 <= i <= j < |run| ==> run[i].now <= run[j].now)
  }

  ghost predicate UsesOnly(p: Policy, run: seq<Timed>) {
    forall i :: 0 <= i < |run| && run[i].event.Consume? ==> run[i].event.policy == p
  }

  // The first moment at which a key last seen at 0 is idle for too long.
  const LATER := MAX_IDLE_MS + 1

  // Either the window is short enough for pruning not to matter, or this is not a prune step.
  ghost predicate PruneSafe(p: Policy, e: Timed) {
    e.event.Prune? ==> p.windowMs <= MAX_IDLE_MS + 1
  }

  // A call of the key is made under the policy.
  ghost predicate KeyUses(e: Timed, key: string, p: Policy) {
    e.event.Consume? && e.event.key == key ==> e.event.policy == p
  }

  // A run in which the key always calls under one policy and pruning does not matter to it.
  ghost predicate SteadyKey(run: seq<Timed>, key: string, p: Policy) {
    && p.Valid() && TimerRun(run)
    && forall i :: 0 <= i < |run| ==> KeyUses(run[i], key, p) && PruneSafe(p, run[i])
  }
}
