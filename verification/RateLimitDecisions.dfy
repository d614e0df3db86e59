/** What decides a request, in the service's own state (src/rate-limit/rate-limit.service.ts). */
module RateLimitDecisions {
  import opened Common
  import opened RateLimitTypes
  import opened RateLimitService
  import opened RateLimitTheorems
  import Metrics
  import TB = TokenBucket
  import SW = SlidingWindow

  /* ---------- Each limit decides as if it were asked alone ---------- */

  // What a limit would answer if it alone were asked in this state.
  function Alone(s: State, l: Limit, now: int): AppliedLimit
    requires l.policy.Valid()
  {
    AppliedLimit(l.scope, l.policy.algorithm, ConsumeLimit(s.buckets, s.windows, l, now).2)
  }

  // The two states hold the same about a key.
  predicate SameAt(s: State, t: State, key: string) {
    && (key in s.buckets <==> key in t.buckets) && (key in s.buckets ==> s.buckets[key] == t.buckets[key])
    && (key in s.windows <==> key in t.windows) && (key in s.windows ==> s.windows[key] == t.windows[key])
  }

  ghost predicate DistinctKeys(plan: seq<Limit>) {
    forall i, j :: 0 <= i < j < |plan| ==> plan[i].key != plan[j].key
  }

  lemma AloneBySame(s: State, t: State, l: Limit, now: int)
    requires l.policy.Valid() && SameAt(s, t, l.key)
    ensures Alone(s, l, now) == Alone(t, l, now)
  {
    hide TB.Step, SW.Step;
  }

  lemma UseLimitElsewhere(s: State, l: Limit, now: int, key: string)
    requires l.policy.Valid() && key != l.key
    ensures SameAt(s, UseLimit(s, l, now).0, key) && UseLimit(s, l, now).1 == Alone(s, l, now)
  {
    hide TB.Step, SW.Step, RecordCheck;
  }

  lemma {:induction false} UseAllElsewhere(s: State, plan: seq<Limit>, now: int, key: string)
    requires ValidPlan(plan) && forall i :: 0 <= i < |plan| ==> plan[i].key != key
    ensures SameAt(s, UseAll(s, plan, now).0, key)
  {
    if plan != [] {
      var n := |plan| - 1;
      UseAllElsewhere(s, plan[..n], now, key);
      UseLimitElsewhere(UseAll(s, plan[..n], now).0, plan[n], now, key);
      hide UseLimit;
    }
  }

  lemma {:induction false} UseAllIsAlone(s: State, plan: seq<Limit>, now: int, i: nat)
    requires ValidPlan(plan) && DistinctKeys(plan) && i < |plan|
    ensures UseAll(s, plan, now).1[i] == Alone(s, plan[i], now)
  {
    var n := |plan| - 1;
    hide UseLimit, Alone;
    if i < n {
      UseAllIsAlone(s, plan[..n], now, i);
    } else {
      var mid := UseAll(s, plan[..n], now).0;
      UseAllElsewhere(s, plan[..n], now, plan[n].key);
      UseLimitElsewhere(mid, plan[n], now, plan[n].key + "'");
      AloneBySame(s, mid, plan[n], now);
    }
  }

  lemma PlanKeysDiffer(c: Config, q: Request, o: Option<Override>)
    ensures DistinctKeys(Plan(c, q, o))
  {
    var plan := Plan(c, q, o);
    forall i, j | 0 <= i < j < |plan|
      ensures plan[i].key != plan[j].key
    {
      assert plan[i].key[0] != plan[j].key[0];
    }
  }

  // What the limits of a request would answer, each asked alone in the state the request finds.
  ghost function AloneResults(s: State, plan: seq<Limit>, now: int): (rs: seq<AppliedLimit>)
    requires ValidPlan(plan)
    ensures |rs| == |plan| && forall i :: 0 <= i < |plan| ==> rs[i] == Alone(s, plan[i], now)
  {
    seq(|plan|, i requires 0 <= i < |plan| => Alone(s, plan[i], now))
  }

  lemma AloneHasLimit(s: State, plan: seq<Limit>, now: int)
    requires ValidPlan(plan)
    ensures PositiveLimits(AloneResults(s, plan, now))
  {
    forall i | 0 <= i < |plan|
      ensures Alone(s, plan[i], now).result.limit > 0
    {
      assert plan[i].policy.Valid();
    }
  }

  lemma CheckDecides(c: Config, s: State, q: Request, o: Option<Override>, skip: bool, now: int)
    requires ValidCall(c, o) && !Bypasses(c, q, skip)
    ensures ValidPlan(Plan(c, q, o)) && Plan(c, q, o) != []
    ensures
      var (s2, rs) := UseAll(Counted(s), Plan(c, q, o), now);
      var (s', d) := CheckStep(c, s, q, o, skip, now);
      s'.buckets == s2.buckets && s'.windows == s2.windows && d == RateLimitService.Decide(rs)
  {
    PlanIsValid(c, q, o);
    hide Plan, UseAll, Metrics.ChangeIn, RateLimitService.Decide, FindDenied;
  }

  lemma {:induction false} AllAlone(s: State, plan: seq<Limit>, now: int)
    requires ValidPlan(plan) && DistinctKeys(plan)
    ensures UseAll(Counted(s), plan, now).1 == AloneResults(s, plan, now)
  {
    hide UseAll, Alone, ConsumeLimit, DistinctKeys;
    forall j | 0 <= j < |plan|
      ensures UseAll(Counted(s), plan, now).1[j] == Alone(s, plan[j], now)
    {
      UseAllIsAlone(Counted(s), plan, now, j);
      AloneBySame(s, Counted(s), plan[j], now);
    }
  }

  /**
   A request that is not bypassed is accepted if and only if every limit it is subject to would admit it
   alone, in the state in which the request comes. A refusal reports the first limit that refuses, an
   acceptance the first limit with the smallest remaining share.
   */
  lemma {:induction false} RequestDecided(c: Config, s: State, q: Request, o: Option<Override>, skip: bool, now: int)
    returns (i: nat)
    requires ValidCall(c, o) && !Bypasses(c, q, skip)
    ensures ValidPlan(Plan(c, q, o)) && i < |Plan(c, q, o)|
    ensures
      var rs, d := AloneResults(s, Plan(c, q, o), now), CheckStep(c, s, q, o, skip, now).1;
      && (d.result.allowed <==> AllAllowed(rs))
      && d == Decision(rs[i].result, false, Some(rs[i].scope), Some(rs[i].algorithm))
      && if AllAllowed(rs) then IsMostRestrictive(rs, i) else IsFirstDenied(rs, i)
  {
    var plan := Plan(c, q, o);
    CheckDecides(c, s, q, o, skip, now);
    PlanKeysDiffer(c, q, o);
    hide Plan, CheckStep;
    AloneHasLimit(s, plan, now);
    AllAlone(s, plan, now);
    hide UseAll, AllAllowed, IsMostRestrictive, IsFirstDenied, PositiveLimits;
    i := DecisionExact(AloneResults(s, plan, now));
  }

  /* ---------- Pruning is invisible to requests ---------- */

  predicate Short(p: Policy) {
    p.windowMs <= MAX_IDLE_MS + 1
  }

  ghost predicate ShortConfig(c: Config) {
    Short(c.ip) && Short(c.user) && forall i :: 0 <= i < |c.endpoints| ==> Short(c.endpoints[i].policy)
  }

  predicate ShortOverride(o: Option<Override>) {
    o.Some? ==> o.value.windowMs <= MAX_IDLE_MS + 1
  }

  ghost predicate ShortOps(ops: seq<Op>) {
    forall i :: 0 <= i < |ops| && ops[i].Ask? ==> ShortOverride(ops[i].o)
  }

  ghost predicate ShortPlan(plan: seq<Limit>) {
    forall i :: 0 <= i < |plan| ==> Short(plan[i].policy)
  }

  lemma PlanIsShort(c: Config, q: Request, o: Option<Override>)
    requires ShortConfig(c) && ShortOverride(o)
    ensures ShortPlan(Plan(c, q, o))
  {
    FoundIsConfigured(c.endpoints, OrElse(q.verb, "GET"), RequestPath(q));
  }

  // `small` is `big` without keys that are idle for too long at `now`.
  ghost predicate PrunedFrom(small: State, big: State, now: int) {
    && TB.PrunedFrom(small.buckets, big.buckets, now) && SW.PrunedFrom(small.windows, big.windows, now)
    && forall k :: k in big.buckets ==> big.buckets[k].windowMs <= MAX_IDLE_MS + 1
  }

  lemma UseLimitPruned(small: State, big: State, l: Limit, now: int)
    requires PrunedFrom(small, big, now) && l.policy.Valid() && Short(l.policy)
    ensures UseLimit(small, l, now).1 == UseLimit(big, l, now).1
    ensures PrunedFrom(UseLimit(small, l, now).0, UseLimit(big, l, now).0, now)
  {
    hide RecordCheck, SW.PrunedFrom, SW.Step, TB.Sound;
    if l.policy.algorithm.SlidingWindow? {
      SW.ApplyPruned(small.windows, big.windows, l.key, l.policy, now);
    } else {
      TB.ApplyPruned(small.buckets, big.buckets, l.key, l.policy, now);
    }
  }

  lemma {:induction false} UseAllPruned(small: State, big: State, plan: seq<Limit>, now: int)
    requires PrunedFrom(small, big, now) && ValidPlan(plan) && ShortPlan(plan)
    ensures UseAll(small, plan, now).1 == UseAll(big, plan, now).1
    ensures PrunedFrom(UseAll(small, plan, now).0, UseAll(big, plan, now).0, now)
  {
    hide PrunedFrom, UseLimit;
    if plan != [] {
      var n := |plan| - 1;
      UseAllPruned(small, big, plan[..n], now);
      UseLimitPruned(UseAll(small, plan[..n], now).0, UseAll(big, plan[..n], now).0, plan[n], now);
    }
  }

  lemma CheckPruned(c: Config, small: State, big: State, q: Request, o: Option<Override>, skip: bool, now: int)
    requires PrunedFrom(small, big, now) && ValidCall(c, o) && ShortConfig(c) && ShortOverride(o)
    ensures CheckStep(c, small, q, o, skip, now).1 == CheckStep(c, big, q, o, skip, now).1
    ensures PrunedFrom(CheckStep(c, small, q, o, skip, now).0, CheckStep(c, big, q, o, skip, now).0, now)
  {
    if !Bypasses(c, q, skip) {
      CheckDecides(c, small, q, o, skip, now);
      CheckDecides(c, big, q, o, skip, now);
      PlanIsShort(c, q, o);
      hide Plan, UseAll, CheckStep, TB.PrunedFrom, SW.PrunedFrom;
      UseAllPruned(Counted(small), Counted(big), Plan(c, q, o), now);
    } else {
      hide Metrics.ChangeIn, UseAll;
    }
  }

  // The requests of a run, without the timer's steps.
  function Asks(ops: seq<Op>): seq<Op> {
    if ops == [] then [] else
    var n := |ops| - 1;
    if ops[n].Ask? then Asks(ops[..n]) + [ops[n]] else Asks(ops[..n])
  }

  lemma {:induction false} AsksAreValid(c: Config, ops: seq<Op>, t: int)
    requires ValidOps(c, ops) && forall i :: 0 <= i < |ops| ==> ops[i].now <= t
    ensures ValidOps(c, Asks(ops)) && forall i :: 0 <= i < |Asks(ops)| ==> Asks(ops)[i].now <= t
  {
    if ops != [] {
      AsksAreValid(c, ops[..|ops| - 1], ops[|ops| - 1].now);
    }
  }

  lemma PrunedLater(small: State, big: State, s: int, now: int)
    requires PrunedFrom(small, big, s) && s <= now
    ensures PrunedFrom(small, big, now) && PrunedFrom(PruneTick(small, now), big, now)
  {
    TB.PruneStaysPruned(small.buckets, big.buckets, s, now);
    SW.PruneStaysPruned(small.windows, big.windows, s, now);
    hide TB.PrunedFrom, SW.PrunedFrom, TB.PruneStep, SW.PruneStep;
  }

  lemma {:induction false} OpPruned(c: Config, small: State, big: State, op: Op)
    requires PrunedFrom(small, big, op.now) && ShortConfig(c)
    requires op.Ask? ==> ValidCall(c, op.o) && ShortOverride(op.o)
    ensures PrunedFrom(Execute(c, small, op), if op.Ask? then Execute(c, big, op) else big, op.now)
  {
    if op.Ask? {
      CheckPruned(c, small, big, op.q, op.o, op.skip, op.now);
    } else {
      PrunedLater(small, big, op.now, op.now);
    }
    hide PrunedFrom, CheckStep, PruneTick;
  }

  lemma {:induction false} LastOp(c: Config, s: State, ops: seq<Op>)
    requires ops != [] && ValidOps(c, ops) && ValidOps(c, Asks(ops))
    ensures
      var n := |ops| - 1;
      && ValidOps(c, ops[..n]) && ValidOps(c, Asks(ops[..n])) && (ops[n].Ask? ==> ValidCall(c, ops[n].o))
      && RunOps(c, s, ops) == Execute(c, RunOps(c, s, ops[..n]), ops[n])
      && RunOps(c, s, Asks(ops)) ==
         (if ops[n].Ask? then Execute(c, RunOps(c, s, Asks(ops[..n])), ops[n]) else RunOps(c, s, Asks(ops[..n])))
  {
    hide Execute;
    var n := |ops| - 1;
    if ops[n].Ask? {
      assert Asks(ops)[..|Asks(ops)| - 1] == Asks(ops[..n]);
    }
  }

  lemma {:induction false} RunIsPruned(c: Config, r: Metrics.Registry, ops: seq<Op>, t: int)
    requires ValidOps(c, ops) && ValidOps(c, Asks(ops)) && ShortConfig(c) && ShortOps(ops)
    requires forall i :: 0 <= i < |ops| ==> ops[i].now <= t
    ensures PrunedFrom(RunOps(c, Initial(r), ops), RunOps(c, Initial(r), Asks(ops)), t)
  {
    hide Metrics.Register, Execute;
    if ops != [] {
      hide PrunedFrom, ShortConfig, Initial;
      var n := |ops| - 1;
      var op := ops[n];
      LastOp(c, Initial(r), ops);
      hide RunOps, Asks;
      RunIsPruned(c, r, ops[..n], op.now);
      OpPruned(c, RunOps(c, Initial(r), ops[..n]), RunOps(c, Initial(r), Asks(ops[..n])), op);
      PrunedLater(RunOps(c, Initial(r), ops), RunOps(c, Initial(r), Asks(ops)), op.now, t);
    }
  }

  /**
   The timer is invisible to requests: while every window of the configuration and of the overrides is at
   most MAX_IDLE_MS + 1 long, a request after any run gets the decision that it would get if nothing had
   ever been pruned.
   */
  lemma {:induction false} TimerIsInvisible(
    c: Config, r: Metrics.Registry, ops: seq<Op>, q: Request, o: Option<Override>, skip: bool, now: int)
    requires ValidOps(c, ops) && ShortConfig(c) && ShortOps(ops) && ValidCall(c, o) && ShortOverride(o)
    requires forall i :: 0 <= i < |ops| ==> ops[i].now <= now
    ensures ValidOps(c, Asks(ops))
    ensures CheckStep(c, RunOps(c, Initial(r), ops), q, o, skip, now).1 ==
            CheckStep(c, RunOps(c, Initial(r), Asks(ops)), q, o, skip, now).1
  {
    AsksAreValid(c, ops, now);
    RunIsPruned(c, r, ops, now);
    CheckPruned(c, RunOps(c, Initial(r), ops), RunOps(c, Initial(r), Asks(ops)), q, o, skip, now);
  }

  /* ---------- Two policies on one path ---------- */

  const ONE := Policy(1, 1000, Algorithm.TokenBucket)
  const TWO := Policy(2, 1000, Algorithm.TokenBucket)

  // One path with a policy for each of two HTTP methods.
  function TwoPolicies(limit: nat): Config {
    Config(
      true, Policy(limit, 1000, Algorithm.TokenBucket), ONE,
      [EndpointPolicy("/x", Some("GET"), true, ONE), EndpointPolicy("/x", Some("POST"), true, TWO)], {}, {}, {})
  }

  function VisitBy(verb: string): Request {
    Request(Some(verb), Some("1"), None, None, None, Some("/x"), None, None)
  }

  function Visit(i: nat): Op {
    Ask(VisitBy(if i % 2 == 0 then "GET" else "POST"), None, false, 0)
  }

  // The two methods in turn, all at one moment.
  function Visits(n: nat): seq<Op> {
    if n == 0 then [] else Visits(n - 1) + [Visit(n - 1)]
  }

  // The endpoint key does not name the method.
  const SHARED := EndpointKey(VisitBy("GET"), true)

  function BucketsAfter(limit: nat, n: nat): TB.Buckets {
    if n == 0 then map[]
    else map[
      IpKey("1") := TB.Bucket((limit - n) * 1000, 0, limit, 1000),
      SHARED := if n % 2 == 1 then TB.Bucket(0, 0, 1, 1000) else TB.Bucket(1000, 0, 2, 1000)]
  }

  function PolicyAt(i: nat): Policy {
    if i % 2 == 0 then ONE else TWO
  }

  lemma VisitPlan(limit: nat, i: nat)
    ensures EndpointKey(Visit(i).q, true) == SHARED && IpKey("1") != SHARED
    ensures Plan(TwoPolicies(limit), Visit(i).q, None) ==
      [Limit(Ip, IpKey("1"), TwoPolicies(limit).ip), Limit(Endpoint, SHARED, PolicyAt(i))]
  {
    var q, es := Visit(i).q, TwoPolicies(limit).endpoints;
    assert RequestPath(q) == "/x" && ClientIp(q) == "1" && Identity(q, true) == "ip:" + "1";
    assert IpKey("1")[0] == 'i' && SHARED[0] == 'e';
    FindsByMethod(es);
    hide FindEndpoint, Covers;
    assert EndpointPolicyOf(TwoPolicies(limit), q, None) == Some(es[i % 2]);
  }

  lemma FindsByMethod(es: seq<EndpointPolicy>)
    requires es == TwoPolicies(0).endpoints
    ensures FindEndpoint(es, "GET", "/x") == Some(es[0]) && FindEndpoint(es, "POST", "/x") == Some(es[1])
  {
    assert |"GET"| == 3 && |"POST"| == 4 && "/x"[1] == 'x';
    assert Covers(es[0], "GET", "/x") && !Covers(es[0], "POST", "/x") && Covers(es[1], "POST", "/x");
    hide Covers;
    assert es[1..] == [es[1]];
    assert FindEndpoint([es[1]], "POST", "/x") == Some(es[1]);
  }

  // Asking the address limit, then the endpoint limit.
  lemma VisitBuckets(limit: nat, i: nat)
    requires i < limit
    ensures
      var (b1, r1) := TB.ConsumeStep(BucketsAfter(limit, i), IpKey("1"), TwoPolicies(limit).ip, 0);
      var (b2, r2) := TB.ConsumeStep(b1, SHARED, PolicyAt(i), 0);
      r1.allowed && r2.allowed && b2 == BucketsAfter(limit, i + 1)
  {
    assert IpKey("1")[0] == 'i' && SHARED[0] == 'e';
    hide IpKey, EndpointKey, CeilDiv;
    assert (limit - i) * 1000 >= 1000;
  }

  lemma UseTwo(s: State, first: Limit, second: Limit, now: int)
    requires first.policy.Valid() && second.policy.Valid()
    ensures
      var (s1, r1) := UseLimit(s, first, now);
      var (s2, r2) := UseLimit(s1, second, now);
      UseAll(s, [first, second], now) == (s2, [r1] + [r2])
  {
    hide UseLimit;
    assert [first, second][..1] == [first] && [first][..0] == [];
    assert UseAll(s, [], now) == (s, []);
    var (s1, r1) := UseLimit(s, first, now);
    assert [] + [r1] == [r1];
    assert UseAll(s, [first], now) == (s1, [r1]);
  }

  // One limit kept by a token bucket.
  lemma UseBucket(s: State, l: Limit, now: int)
    requires l.policy.Valid() && l.policy.algorithm == Algorithm.TokenBucket
    ensures
      var (s', r) := UseLimit(s, l, now);
      (s'.buckets, r.result) == TB.ConsumeStep(s.buckets, l.key, l.policy, now)
  {
    hide TB.ConsumeStep, RecordCheck;
  }

  lemma {:induction false} VisitUses(limit: nat, s: State, i: nat)
    requires i < limit && s.buckets == BucketsAfter(limit, i)
    ensures ValidPlan(Plan(TwoPolicies(limit), Visit(i).q, None))
    ensures
      var (t, rs) := UseAll(s, Plan(TwoPolicies(limit), Visit(i).q, None), 0);
      t.buckets == BucketsAfter(limit, i + 1) && AllAllowed(rs)
  {
    var c := TwoPolicies(limit);
    var first, second := Limit(Ip, IpKey("1"), c.ip), Limit(Endpoint, SHARED, PolicyAt(i));
    VisitPlan(limit, i);
    VisitBuckets(limit, i);
    UseTwo(s, first, second, 0);
    var (s1, r1) := UseLimit(s, first, 0);
    UseBucket(s, first, 0);
    UseBucket(s1, second, 0);
    hide Plan, TB.ConsumeStep, UseAll, BucketsAfter, IpKey, EndpointKey, UseLimit;
  }

  lemma {:induction false} VisitStep(limit: nat, s: State, i: nat)
    requires i < limit && s.buckets == BucketsAfter(limit, i)
    ensures ValidCall(TwoPolicies(limit), None)
    ensures Accepts(TwoPolicies(limit), s, Visit(i))
    ensures Execute(TwoPolicies(limit), s, Visit(i)).buckets == BucketsAfter(limit, i + 1)
  {
    var c, q := TwoPolicies(limit), Visit(i).q;
    var plan := Plan(c, q, None);
    VisitUses(limit, Counted(s), i);
    CheckDecides(c, s, q, None, false, 0);
    UseAllAppliesAll(Counted(s), plan, 0);
    hide Plan, CheckStep, UseAll, BucketsAfter, AllAllowed, PositiveLimits;
    var _ := DecisionExact(UseAll(Counted(s), plan, 0).1);
  }

  lemma {:induction false} VisitsAreValid(limit: nat, n: nat)
    requires limit > 0
    ensures ValidOps(TwoPolicies(limit), Visits(n)) && |Visits(n)| == n
    ensures forall i :: 0 <= i < |Visits(n)| ==> Visits(n)[i].now == 0
  {
    if n > 0 {
      VisitsAreValid(limit, n - 1);
    }
  }

  // How many of the visits are by the first method.
  function Firsts(n: nat): nat {
    if n == 0 then 0 else Firsts(n - 1) + if (n - 1) % 2 == 0 then 1 else 0
  }

  lemma {:induction false} FirstsAreHalf(n: nat)
    ensures Firsts(2 * n) == n
  {
    if n > 0 {
      FirstsAreHalf(n - 1);
      assert Firsts(2 * n) == Firsts(2 * n - 1) && Firsts(2 * n - 1) == Firsts(2 * n - 2) + 1;
    }
  }

  lemma {:induction false} VisitsRun(limit: nat, r: Metrics.Registry, n: nat)
    requires n <= limit && limit > 0 && ValidOps(TwoPolicies(limit), Visits(n))
    ensures RunOps(TwoPolicies(limit), Initial(r), Visits(n)).buckets == BucketsAfter(limit, n)
    ensures |AcceptedTimes(TwoPolicies(limit), Initial(r), Visits(n), SHARED, ONE)| == Firsts(n)
    decreases n
  {
    hide ValidOps, RunOps, AcceptedTimes, BucketsAfter, Initial, Visits;
    if n == 0 {
      NoVisits(limit, r);
    } else {
      VisitsAreValid(limit, n - 1);
      VisitsRun(limit, r, n - 1);
      NextVisit(limit, Initial(r), n - 1);
    }
  }

  lemma NoVisits(limit: nat, r: Metrics.Registry)
    requires ValidOps(TwoPolicies(limit), Visits(0))
    ensures RunOps(TwoPolicies(limit), Initial(r), Visits(0)).buckets == BucketsAfter(limit, 0)
    ensures AcceptedTimes(TwoPolicies(limit), Initial(r), Visits(0), SHARED, ONE) == []
  {
    hide ValidOps, Metrics.Register, EndpointKey;
    assert Visits(0) == [];
  }

  // One more visit after a run of them.
  lemma {:induction false} NextVisit(limit: nat, start: State, i: nat)
    requires i < limit && ValidOps(TwoPolicies(limit), Visits(i)) && ValidOps(TwoPolicies(limit), Visits(i + 1))
    requires RunOps(TwoPolicies(limit), start, Visits(i)).buckets == BucketsAfter(limit, i)
    ensures RunOps(TwoPolicies(limit), start, Visits(i + 1)).buckets == BucketsAfter(limit, i + 1)
    ensures
      |AcceptedTimes(TwoPolicies(limit), start, Visits(i + 1), SHARED, ONE)| ==
      |AcceptedTimes(TwoPolicies(limit), start, Visits(i), SHARED, ONE)| + if i % 2 == 0 then 1 else 0
  {
    hide Plan, EndpointKey, Accepts, Execute, Uses, ValidOps, RunOps, AcceptedTimes, BucketsAfter;
    var c := TwoPolicies(limit);
    VisitStep(limit, RunOps(c, start, Visits(i)), i);
    VisitUsesKey(limit, i);
    assert Visits(i + 1) == Visits(i) + [Visit(i)];
    OneMore(c, start, Visits(i), Visit(i), SHARED, ONE);
  }

  lemma VisitUsesKey(limit: nat, i: nat)
    ensures Uses(Plan(TwoPolicies(limit), Visit(i).q, None), SHARED, ONE) <==> i % 2 == 0
  {
    VisitPlan(limit, i);
    var plan := Plan(TwoPolicies(limit), Visit(i).q, None);
    hide Plan, IpKey, EndpointKey;
    assert plan[1].key == SHARED && plan[1].policy == PolicyAt(i);
  }

  lemma OneMore(c: Config, s: State, ops: seq<Op>, op: Op, key: string, p: Policy)
    requires ValidOps(c, ops) && ValidOps(c, ops + [op])
    ensures op.Ask? ==> ValidCall(c, op.o)
    ensures RunOps(c, s, ops + [op]) == Execute(c, RunOps(c, s, ops), op)
    ensures AcceptedTimes(c, s, ops + [op], key, p) ==
      AcceptedTimes(c, s, ops, key, p) +
        if Accepts(c, RunOps(c, s, ops), op) && Uses(Plan(c, op.q, op.o), key, p) then [op.now] else []
  {
    hide Accepts, Uses, Execute, Plan;
    assert (ops + [op])[..|ops|] == ops && (ops + [op])[|ops|] == op;
  }

  /**
   With two policies on one path the endpoint bound is lost: for every number there is a run from the start
   in which that many requests are accepted at one moment under a policy that allows one in a second.
   */
  lemma {:induction false} TwoPoliciesExceed(r: Metrics.Registry, n: nat)
    requires n >= 2
    ensures
      var c, ops := TwoPolicies(2 * n), Visits(2 * n);
      && Stretch(c, [], ops, 0, 0) && |AcceptedTimes(c, Initial(r), ops, SHARED, ONE)| == n
      && !Obeys(AcceptedTimes(c, Initial(r), ops, SHARED, ONE), ONE, 0, 0)
  {
    VisitsAreOneStretch(2 * n);
    hide Stretch;
    VisitsRun(2 * n, r, 2 * n);
    FirstsAreHalf(n);
    hide ValidOps, AcceptedTimes, Visits, RunOps, Firsts, Obeys;
    TooManyAtOnce(AcceptedTimes(TwoPolicies(2 * n), Initial(r), Visits(2 * n), SHARED, ONE));
  }

  lemma VisitsAreOneStretch(n: nat)
    requires n > 0
    ensures ValidOps(TwoPolicies(n), Visits(n)) && Stretch(TwoPolicies(n), [], Visits(n), 0, 0)
  {
    VisitsAreValid(n, n);
    assert [] + Visits(n) == Visits(n);
    hide Visits;
  }

  lemma TooManyAtOnce(times: seq<int>)
    requires |times| >= 2
    ensures !Obeys(times, ONE, 0, 0)
  {
  }
}
