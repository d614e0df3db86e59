/** What the rate-limiting service guarantees over whole runs (src/rate-limit/rate-limit.service.ts). */
module RateLimitTheorems {
  import opened Common
  import opened RateLimitTypes
  import opened Metrics
  import opened RateLimitService
  import TB = TokenBucket
  import SW = SlidingWindow

  /* ---------- Decisions ---------- */

  ghost predicate AllAllowed(rs: seq<AppliedLimit>) {
    forall i :: 0 <= i < |rs| ==> rs[i].result.allowed
  }

  ghost predicate IsFirstDenied(rs: seq<AppliedLimit>, i: int) {
    0 <= i < |rs| && !rs[i].result.allowed && forall j :: 0 <= j < i ==> rs[j].result.allowed
  }

  lemma {:induction false} FindDeniedExact(rs: seq<AppliedLimit>)
    ensures FindDenied(rs).None? <==> AllAllowed(rs)
    ensures FindDenied(rs).Some? ==> exists i :: IsFirstDenied(rs, i) && rs[i] == FindDenied(rs).value
  {
    if rs != [] && !rs[0].result.allowed {
      assert IsFirstDenied(rs, 0);
    } else if rs != [] {
      FindDeniedExact(rs[1..]);
      if FindDenied(rs[1..]).Some? {
        var i :| IsFirstDenied(rs[1..], i) && rs[1..][i] == FindDenied(rs[1..]).value;
        assert forall j :: 0 <= j < i + 1 ==> j == 0 || rs[j] == rs[1..][j - 1];
        assert IsFirstDenied(rs, i + 1) && rs[i + 1] == FindDenied(rs).value;
      } else {
        assert forall j :: 0 <= j < |rs| ==> j == 0 || rs[j] == rs[1..][j - 1];
      }
    }
  }

  ghost predicate PositiveLimits(rs: seq<AppliedLimit>) {
    forall i :: 0 <= i < |rs| ==> rs[i].result.limit > 0
  }

  lemma TighterTransitive(a: AppliedLimit, b: AppliedLimit, c: AppliedLimit)
    requires a.result.limit > 0 && b.result.limit > 0 && c.result.limit > 0
    requires !Tighter(c, b) && Tighter(a, b)
    ensures Tighter(a, c)
  {
    var x, y, z := a.result.remaining, b.result.remaining, c.result.remaining;
    var p, q, r := a.result.limit, b.result.limit, c.result.limit;
    // x/p < y/q <= z/r
    assert x * q < y * p && y * r <= z * q;
    ScaledLess(x * q, y * p, r);
    MulMonotone(y * r, z * q, p);
    assert (x * q) * r == (x * r) * q && (y * p) * r == (y * r) * p && (z * q) * p == (z * p) * q;
    if x * r >= z * p {
      MulMonotone(z * p, x * r, q);
    }
  }

  lemma ScaledLess(a: int, b: int, c: int)
    requires a < b && c > 0
    ensures a * c < b * c
  {
    assert (b - a) * c > 0;
  }

  // `i` is the first of the limits with the smallest remaining share.
  ghost predicate IsMostRestrictive(rs: seq<AppliedLimit>, i: nat)
    requires i < |rs|
  {
    && (forall j :: 0 <= j < |rs| ==> !Tighter(rs[j], rs[i]))
    && (forall j :: 0 <= j < i ==> Tighter(rs[i], rs[j]))
  }

  lemma {:induction false} MostRestrictiveExact(rs: seq<AppliedLimit>) returns (i: nat)
    requires rs != [] && PositiveLimits(rs)
    ensures i < |rs| && MostRestrictive(rs) == rs[i] && IsMostRestrictive(rs, i)
  {
    var n := |rs| - 1;
    if n == 0 {
      i := 0;
    } else {
      i := MostRestrictiveExact(rs[..n]);
      var m := rs[i];
      assert forall j :: 0 <= j < n ==> rs[..n][j] == rs[j];
      if Tighter(rs[n], m) {
        forall j | 0 <= j < n
          ensures Tighter(rs[n], rs[j]) && !Tighter(rs[j], rs[n])
        {
          TighterTransitive(rs[n], m, rs[j]);
        }
        i := n;
      }
    }
  }

  /**
   A request that is not bypassed is accepted if and only if every applied limit admits it. A refusal
   reports the first limit that refused, an acceptance the first limit with the smallest remaining share.
   */
  lemma {:induction false} DecisionExact(rs: seq<AppliedLimit>) returns (i: nat)
    requires rs != [] && PositiveLimits(rs)
    ensures Decide(rs).result.allowed <==> AllAllowed(rs)
    ensures i < |rs|
    ensures Decide(rs) == Decision(rs[i].result, false, Some(rs[i].scope), Some(rs[i].algorithm))
    ensures AllAllowed(rs) ==> IsMostRestrictive(rs, i)
    ensures !AllAllowed(rs) ==> IsFirstDenied(rs, i)
  {
    FindDeniedExact(rs);
    if AllAllowed(rs) {
      i := MostRestrictiveExact(rs);
    } else {
      i :| IsFirstDenied(rs, i) && rs[i] == FindDenied(rs).value;
    }
  }

  // Every limit of the plan is applied, whatever the outcome of the others.
  lemma {:induction false} UseAllAppliesAll(s: State, plan: seq<Limit>, now: int)
    requires ValidPlan(plan)
    ensures
      var rs := UseAll(s, plan, now).1;
      && PositiveLimits(rs)
      && forall i :: 0 <= i < |plan| ==>
          rs[i].scope == plan[i].scope && rs[i].algorithm == plan[i].policy.algorithm &&
            rs[i].result.limit == plan[i].policy.limit
  {
    if plan != [] {
      UseAllAppliesAll(s, plan[..|plan| - 1], now);
    }
  }

  /* ---------- Whole runs ---------- */

  datatype Op =
    | Ask(q: Request, o: Option<Override>, skip: bool, now: int)
    | Timer(now: int)

  ghost predicate ValidOps(c: Config, ops: seq<Op>) {
    && (forall i :: 0 <= i < |ops| && ops[i].Ask? ==> ValidCall(c, ops[i].o))
    && (forall i, j :: 0 <= i <= j < |ops| ==> ops[i].now <= ops[j].now)
    && c.Valid()
  }

  function Execute(c: Config, s: State, op: Op): State
    requires op.Ask? ==> ValidCall(c, op.o)
  {
    match op
    case Ask(q, o, skip, now) => CheckStep(c, s, q, o, skip, now).0
    case Timer(now) => PruneTick(s, now)
  }

  function RunOps(c: Config, s: State, ops: seq<Op>): State
    requires ValidOps(c, ops)
  {
    if ops == [] then s else Execute(c, RunOps(c, s, ops[..|ops| - 1]), ops[|ops| - 1])
  }

  /* ---------- The books agree ---------- */

  function ChecksOf(r: Registry, s: Scope, allowed: bool): int {
    MetricValueOf(r, CHECKS, CheckLabels(s, Algorithm.TokenBucket, allowed))
    + MetricValueOf(r, CHECKS, CheckLabels(s, Algorithm.SlidingWindow, allowed))
  }

  function Outcome(t: Tally, allowed: bool): nat {
    if allowed then t.allowed else t.rejected
  }

  ghost predicate Registered(r: Registry) {
    && CHECKS in r && EXCEEDED in r && BYPASSED in r && ACTIVE_KEYS in r
    && Distinct(r[CHECKS]) && Distinct(r[EXCEEDED]) && Distinct(r[BYPASSED]) && Distinct(r[ACTIVE_KEYS])
  }

  // The metric counters tell the same story as the tallies.
  ghost predicate CountersAgree(b: Books) {
    && Registered(b.metrics)
    && (forall s: Scope, ok: bool :: ChecksOf(b.metrics, s, ok) == Outcome(b.byScope.At(s), ok))
    && (forall s: Scope :: MetricValueOf(b.metrics, EXCEEDED, ScopeLabels(s)) == b.byScope.At(s).rejected)
    && MetricValueOf(b.metrics, BYPASSED, ReasonLabels("configuration"))
       + MetricValueOf(b.metrics, BYPASSED, ReasonLabels("whitelist")) == b.bypassed
  }

  function Checks(t: Tally): nat {
    t.allowed + t.rejected
  }

  // The totals add up.
  ghost predicate TotalsAgree(b: Books) {
    && b.total == b.allowed + b.rejected + b.bypassed
    && Checks(b.byScope.ip) == b.total - b.bypassed
    && Checks(b.byScope.user) <= b.total - b.bypassed
    && Checks(b.byScope.endpoint) <= b.total - b.bypassed
  }

  ghost predicate GaugeAgrees(s: State) {
    MetricValueOf(s.books.metrics, ACTIVE_KEYS, map[]) == |s.buckets| + |s.windows|
  }

  lemma ScopeNamesDiffer()
    ensures forall s, t: Scope :: ScopeName(s) == ScopeName(t) ==> s == t
  {
    assert |"ip"| == 2 && |"user"| == 4 && |"endpoint"| == 8;
  }

  lemma CheckLabelsDiffer(s: Scope, a: Algorithm, ok: bool, t: Scope, b: Algorithm, ok': bool)
    ensures CheckLabels(s, a, ok) == CheckLabels(t, b, ok') <==> s == t && a == b && ok == ok'
  {
    ScopeNamesDiffer();
    var x, y := CheckLabels(s, a, ok), CheckLabels(t, b, ok');
    assert x["scope"] == ScopeName(s) && y["scope"] == ScopeName(t);
    assert x["algorithm"] == AlgorithmName(a) && y["algorithm"] == AlgorithmName(b);
    assert |"token-bucket"| == 12 && |"sliding-window"| == 14;
    assert |x["outcome"]| == (if ok then 7 else 8) && |y["outcome"]| == if ok' then 7 else 8;
  }

  lemma ScopeLabelsDiffer(s: Scope, t: Scope)
    ensures ScopeLabels(s) == ScopeLabels(t) <==> s == t
  {
    ScopeNamesDiffer();
    assert ScopeLabels(s)["scope"] == ScopeName(s) && ScopeLabels(t)["scope"] == ScopeName(t);
  }

  // A change of one metric, seen through all of them.
  lemma ChangeInSeen(r: Registry, name: string, labels: Labels, f: int -> int, other: string, others: Labels)
    requires name in r
    ensures MetricValueOf(ChangeIn(r, name, labels, f), other, others) ==
      if other == name && others == labels then f(MetricValueOf(r, name, labels)) else MetricValueOf(r, other, others)
  {
    ChangeSeen(r[name], labels, f, others);
  }

  lemma ChangeKeepsRegistered(r: Registry, name: string, labels: Labels, f: int -> int)
    requires Registered(r)
    ensures Registered(ChangeIn(r, name, labels, f))
  {
    if name in r && Distinct(r[name]) {
      ChangeKeepsDistinct(r[name], labels, f);
    }
  }

  lemma NamesDiffer()
    ensures CHECKS != EXCEEDED && CHECKS != BYPASSED && CHECKS != ACTIVE_KEYS
    ensures EXCEEDED != BYPASSED && EXCEEDED != ACTIVE_KEYS && BYPASSED != ACTIVE_KEYS
  {
    assert |CHECKS| == 23 && |EXCEEDED| == 25 && |BYPASSED| == 25 && |ACTIVE_KEYS| == 22;
    assert EXCEEDED[11] == 'e' && BYPASSED[11] == 'b';
  }

  // The counter of checks moves for one scope and outcome, by one.
  lemma ChecksMove(r: Registry, s: Scope, a: Algorithm, ok: bool, t: Scope, ok': bool)
    requires CHECKS in r
    ensures ChecksOf(ChangeIn(r, CHECKS, CheckLabels(s, a, ok), Add(1)), t, ok') ==
      ChecksOf(r, t, ok') + if s == t && ok == ok' then 1 else 0
  {
    var tb, sw := CheckLabels(t, Algorithm.TokenBucket, ok'), CheckLabels(t, Algorithm.SlidingWindow, ok');
    CheckLabelsDiffer(s, a, ok, t, Algorithm.TokenBucket, ok');
    CheckLabelsDiffer(s, a, ok, t, Algorithm.SlidingWindow, ok');
    ChangeInSeen(r, CHECKS, CheckLabels(s, a, ok), Add(1), CHECKS, tb);
    ChangeInSeen(r, CHECKS, CheckLabels(s, a, ok), Add(1), CHECKS, sw);
  }

  lemma OtherMetricsStay(r: Registry, name: string, labels: Labels, f: int -> int, other: string, others: Labels)
    requires name in r && name != other
    ensures MetricValueOf(ChangeIn(r, name, labels, f), other, others) == MetricValueOf(r, other, others)
  {
  }

  lemma RecordCheckAgrees(b: Books, s: Scope, a: Algorithm, ok: bool)
    requires CountersAgree(b)
    ensures CountersAgree(RecordCheck(b, s, a, ok))
    ensures MetricValueOf(RecordCheck(b, s, a, ok).metrics, ACTIVE_KEYS, map[]) ==
      MetricValueOf(b.metrics, ACTIVE_KEYS, map[])
  {
    hide ChangeIn, MetricValueOf, CheckLabels, ScopeLabels;
    NamesDiffer();
    var b' := RecordCheck(b, s, a, ok);
    var m := ChangeIn(b.metrics, CHECKS, CheckLabels(s, a, ok), Add(1));
    ChangeKeepsRegistered(b.metrics, CHECKS, CheckLabels(s, a, ok), Add(1));
    ChangeKeepsRegistered(m, EXCEEDED, ScopeLabels(s), Add(1));
    forall t: Scope, ok': bool
      ensures ChecksOf(b'.metrics, t, ok') == Outcome(b'.byScope.At(t), ok')
    {
      ChecksMove(b.metrics, s, a, ok, t, ok');
      OtherMetricsStay(m, EXCEEDED, ScopeLabels(s), Add(1), CHECKS, CheckLabels(t, Algorithm.TokenBucket, ok'));
      OtherMetricsStay(m, EXCEEDED, ScopeLabels(s), Add(1), CHECKS, CheckLabels(t, Algorithm.SlidingWindow, ok'));
    }
    forall t: Scope
      ensures MetricValueOf(b'.metrics, EXCEEDED, ScopeLabels(t)) == b'.byScope.At(t).rejected
    {
      ScopeLabelsDiffer(s, t);
      OtherMetricsStay(b.metrics, CHECKS, CheckLabels(s, a, ok), Add(1), EXCEEDED, ScopeLabels(t));
      ChangeInSeen(m, EXCEEDED, ScopeLabels(s), Add(1), EXCEEDED, ScopeLabels(t));
    }
    forall name: string, labels: Labels | name == BYPASSED || name == ACTIVE_KEYS
      ensures MetricValueOf(b'.metrics, name, labels) == MetricValueOf(b.metrics, name, labels)
    {
      OtherMetricsStay(b.metrics, CHECKS, CheckLabels(s, a, ok), Add(1), name, labels);
      OtherMetricsStay(m, EXCEEDED, ScopeLabels(s), Add(1), name, labels);
    }
  }

  // How many limits of the plan have this scope.
  function ScopeCount(plan: seq<Limit>, s: Scope): nat {
    if plan == [] then 0 else
    ScopeCount(plan[..|plan| - 1], s) + if plan[|plan| - 1].scope == s then 1 else 0
  }

  lemma {:induction false} UseAllAgrees(s: State, plan: seq<Limit>, now: int)
    requires ValidPlan(plan) && CountersAgree(s.books)
    ensures
      var b := UseAll(s, plan, now).0.books;
      && CountersAgree(b)
      && b.total == s.books.total && b.allowed == s.books.allowed
      && b.rejected == s.books.rejected && b.bypassed == s.books.bypassed
      && (forall t: Scope :: Checks(b.byScope.At(t)) == Checks(s.books.byScope.At(t)) + ScopeCount(plan, t))
  {
    hide CountersAgree;
    if plan != [] {
      var n := |plan| - 1;
      UseAllAgrees(s, plan[..n], now);
      var s' := UseAll(s, plan[..n], now).0;
      var r := UseLimit(s', plan[n], now).1;
      RecordCheckAgrees(s'.books, plan[n].scope, plan[n].policy.algorithm, r.result.allowed);
    }
  }

  lemma ScopeCountSnoc(plan: seq<Limit>, l: Limit, s: Scope)
    ensures ScopeCount(plan + [l], s) == ScopeCount(plan, s) + if l.scope == s then 1 else 0
  {
    assert (plan + [l])[..|plan|] == plan;
  }

  lemma PlanScopes(c: Config, q: Request, o: Option<Override>)
    ensures ScopeCount(Plan(c, q, o), Ip) == 1
    ensures ScopeCount(Plan(c, q, o), User) <= 1 && ScopeCount(Plan(c, q, o), Endpoint) <= 1
  {
    hide IpKey, UserKey, EndpointKey, EndpointPolicyOf, ClientIp;
    var e := EndpointPolicyOf(c, q, o);
    var ip := Limit(Ip, IpKey(ClientIp(q)), c.ip);
    var p0: seq<Limit> := [];
    assert p0 + [ip] == [ip];
    var p1 := [ip];
    var p2 := if HasUser(q) then p1 + [Limit(User, UserKey(q.userId.value), c.user)] else p1;
    assert Plan(c, q, o) ==
      if e.Some? then p2 + [Limit(Endpoint, EndpointKey(q, e.value.byIp), e.value.policy)] else p2;
    forall s: Scope
      ensures ScopeCount(p2, s) == if s == Ip then 1 else if s == User && HasUser(q) then 1 else 0
    {
      ScopeCountSnoc(p0, ip, s);
      if HasUser(q) {
        ScopeCountSnoc(p1, Limit(User, UserKey(q.userId.value), c.user), s);
      }
    }
    forall s: Scope | e.Some?
      ensures ScopeCount(Plan(c, q, o), s) == ScopeCount(p2, s) + if s == Endpoint then 1 else 0
    {
      ScopeCountSnoc(p2, Limit(Endpoint, EndpointKey(q, e.value.byIp), e.value.policy), s);
    }
  }

  ghost predicate AllAgree(s: State) {
    CountersAgree(s.books) && TotalsAgree(s.books) && GaugeAgrees(s)
  }

  lemma UpdateGaugeAgrees(s: State)
    requires CountersAgree(s.books)
    ensures CountersAgree(UpdateActiveKeys(s).books) && GaugeAgrees(UpdateActiveKeys(s))
  {
    NamesDiffer();
    ChangeInSeen(s.books.metrics, ACTIVE_KEYS, map[], Put(|s.buckets| + |s.windows|), ACTIVE_KEYS, map[]);
    ChangeKeepsRegistered(s.books.metrics, ACTIVE_KEYS, map[], Put(|s.buckets| + |s.windows|));
  }

  lemma BypassAgrees(s: State, reason: string, now: int)
    requires CountersAgree(s.books) && (reason == "configuration" || reason == "whitelist")
    ensures CountersAgree(BypassStep(s, reason, now).0.books)
    ensures GaugeAgrees(s) ==> GaugeAgrees(BypassStep(s, reason, now).0)
  {
    NamesDiffer();
    var labels := ReasonLabels(reason);
    assert |"configuration"| == 13 && |"whitelist"| == 9;
    assert ReasonLabels("configuration")["reason"] == "configuration" &&
      ReasonLabels("whitelist")["reason"] == "whitelist";
    assert ReasonLabels("configuration") != ReasonLabels("whitelist");
    ChangeInSeen(s.books.metrics, BYPASSED, labels, Add(1), BYPASSED, ReasonLabels("configuration"));
    ChangeInSeen(s.books.metrics, BYPASSED, labels, Add(1), BYPASSED, ReasonLabels("whitelist"));
    ChangeKeepsRegistered(s.books.metrics, BYPASSED, labels, Add(1));
  }

  lemma ExecuteAgrees(c: Config, s: State, op: Op)
    requires AllAgree(s) && (op.Ask? ==> ValidCall(c, op.o))
    ensures AllAgree(Execute(c, s, op))
  {
    hide CountersAgree, GaugeAgrees, UpdateActiveKeys, Plan, UseAll;
    match op
    case Timer(now) =>
      PruneAgrees(s, now);
    case Ask(q, o, skip, now) =>
      var s1 := s.(books := s.books.(total := s.books.total + 1));
      TotalIsApart(s);
      if !c.enabled || skip {
        BypassAgrees(s1, "configuration", now);
      } else if IsWhitelisted(c, q) {
        BypassAgrees(s1, "whitelist", now);
      } else {
        PlanIsValid(c, q, o);
        UseAllAgrees(s1, Plan(c, q, o), now);
        PlanScopes(c, q, o);
        var (s2, rs) := UseAll(s1, Plan(c, q, o), now);
        SettleAgrees(s2, rs);
        var b, b1 := s2.books.byScope, s1.books.byScope;
        assert Checks(b.At(Ip)) == Checks(b1.At(Ip)) + 1;
        assert Checks(b.At(User)) <= Checks(b1.At(User)) + 1;
        assert Checks(b.At(Endpoint)) <= Checks(b1.At(Endpoint)) + 1;
      }
  }

  lemma TotalIsApart(s: State)
    requires CountersAgree(s.books) && GaugeAgrees(s)
    ensures
      var s1 := s.(books := s.books.(total := s.books.total + 1));
      CountersAgree(s1.books) && GaugeAgrees(s1)
  {
  }

  lemma PruneAgrees(s: State, now: int)
    requires CountersAgree(s.books) && TotalsAgree(s.books)
    ensures AllAgree(PruneTick(s, now))
  {
    var cutoff := now - MAX_IDLE_MS;
    UpdateGaugeAgrees(s.(buckets := TB.PruneStep(s.buckets, cutoff), windows := SW.PruneStep(s.windows, cutoff)));
  }

  lemma SettleAgrees(s: State, rs: seq<AppliedLimit>)
    requires CountersAgree(s.books) && rs != []
    ensures
      var b, b' := s.books, SettleStep(s, rs).0.books;
      && CountersAgree(b') && GaugeAgrees(SettleStep(s, rs).0)
      && b'.total == b.total && b'.bypassed == b.bypassed && b'.byScope == b.byScope
      && b'.allowed + b'.rejected == b.allowed + b.rejected + 1
  {
    var b := s.books;
    var b' := if FindDenied(rs).Some? then b.(rejected := b.rejected + 1) else b.(allowed := b.allowed + 1);
    assert CountersAgree(b');
    UpdateGaugeAgrees(s.(books := b'));
  }

  lemma {:induction false} InitialAgrees(r: Registry)
    requires CHECKS !in r && EXCEEDED !in r && BYPASSED !in r && ACTIVE_KEYS !in r
    ensures AllAgree(Initial(r))
  {
    hide CountersAgree, GaugeAgrees, TotalsAgree, Register, CHECKS, EXCEEDED, BYPASSED, ACTIVE_KEYS;
    NothingChecked();
    hide NOTHING_YET, Checks;
    NothingAddsUp(Initial(r).books);
    EmptyCounters(r);
  }

  lemma {:induction false} NothingAddsUp(b: Books)
    requires b.total == 0 && b.allowed == 0 && b.rejected == 0 && b.bypassed == 0
    requires Checks(b.byScope.ip) == Checks(b.byScope.user) == Checks(b.byScope.endpoint) == 0
    ensures TotalsAgree(b)
  {
    hide Checks;
  }

  lemma {:induction false} NothingChecked()
    ensures Checks(NOTHING_YET.ip) == Checks(NOTHING_YET.user) == Checks(NOTHING_YET.endpoint) == 0
  {
  }

  lemma {:induction false} EmptyCounters(r: Registry)
    requires CHECKS !in r && EXCEEDED !in r && BYPASSED !in r && ACTIVE_KEYS !in r
    ensures CountersAgree(Initial(r).books) && GaugeAgrees(Initial(r))
  {
    hide MetricValueOf, Register, CountersAgree;
    NamesDiffer();
    RegisterFour(r, CHECKS, EXCEEDED, BYPASSED, ACTIVE_KEYS);
    NothingCounted(Initial(r).books.metrics);
  }

  lemma {:induction false} RegisterFour(r: Registry, a: string, b: string, c: string, d: string)
    requires a !in r && b !in r && c !in r && d !in r
    requires a != b && a != c && a != d && b != c && b != d && c != d
    ensures
      var m := Register(Register(Register(Register(r, a), b), c), d);
      a in m && b in m && c in m && d in m && m[a] == [] && m[b] == [] && m[c] == [] && m[d] == []
  {
  }

  lemma {:induction false} NothingCounted(m: Registry)
    requires CHECKS in m && EXCEEDED in m && BYPASSED in m && ACTIVE_KEYS in m
    requires m[CHECKS] == [] && m[EXCEEDED] == [] && m[BYPASSED] == [] && m[ACTIVE_KEYS] == []
    ensures CountersAgree(Books(0, 0, 0, 0, NOTHING_YET, m))
    ensures MetricValueOf(m, ACTIVE_KEYS, map[]) == 0
  {
    forall s: Scope, ok: bool
      ensures ChecksOf(m, s, ok) == 0 == Outcome(NOTHING_YET.At(s), ok)
    {
    }
  }

  /**
   In every reachable state the books agree: every request is counted once as allowed, rejected or
   bypassed; each one that is not bypassed is checked once against the IP limit; the tallies equal the
   counters, whose label sets stay pairwise distinct; and the gauge is the number of keys in memory.
   */
  lemma {:induction false} BooksAlwaysAgree(c: Config, r: Registry, ops: seq<Op>)
    requires ValidOps(c, ops)
    requires CHECKS !in r && EXCEEDED !in r && BYPASSED !in r && ACTIVE_KEYS !in r
    ensures AllAgree(RunOps(c, Initial(r), ops))
  {
    if ops == [] {
      InitialAgrees(r);
    } else {
      BooksAlwaysAgree(c, r, ops[..|ops| - 1]);
      ExecuteAgrees(c, RunOps(c, Initial(r), ops[..|ops| - 1]), ops[|ops| - 1]);
    }
  }

  /* ---------- Accepted requests obey every applied limit ---------- */

  // The calls one request makes to the token buckets, and to the sliding windows.
  function Calls(plan: seq<Limit>, now: int, a: Algorithm): seq<Timed> {
    if plan == [] then [] else
    var n := |plan| - 1;
    var before := Calls(plan[..n], now, a);
    if plan[n].policy.algorithm == a then before + [Timed(Consume(plan[n].key, plan[n].policy, now), now)] else before
  }

  function OpCalls(c: Config, op: Op, a: Algorithm): seq<Timed> {
    match op
    case Timer(now) => [Timed(Prune(now - MAX_IDLE_MS), now)]
    case Ask(q, o, skip, now) => if Bypasses(c, q, skip) then [] else Calls(Plan(c, q, o), now, a)
  }

  // What a whole run does to the limiter of one algorithm.
  function Trace(c: Config, ops: seq<Op>, a: Algorithm): seq<Timed> {
    if ops == [] then [] else Trace(c, ops[..|ops| - 1], a) + OpCalls(c, ops[|ops| - 1], a)
  }

  // The request at the end of a run was checked, and accepted.
  predicate Accepts(c: Config, s: State, op: Op)
    requires op.Ask? ==> ValidCall(c, op.o)
  {
    op.Ask? && !Bypasses(c, op.q, op.skip) && CheckStep(c, s, op.q, op.o, op.skip, op.now).1.result.allowed
  }

  ghost predicate Uses(plan: seq<Limit>, key: string, p: Policy) {
    exists i :: 0 <= i < |plan| && plan[i].key == key && plan[i].policy == p
  }

  // When requests subject to a limit with this key and policy were accepted.
  ghost function AcceptedTimes(c: Config, s: State, ops: seq<Op>, key: string, p: Policy): seq<int>
    requires ValidOps(c, ops)
  {
    if ops == [] then [] else
    var n := |ops| - 1;
    var before := AcceptedTimes(c, s, ops[..n], key, p);
    if Accepts(c, RunOps(c, s, ops[..n]), ops[n]) && Uses(Plan(c, ops[n].q, ops[n].o), key, p)
    then before + [ops[n].now] else before
  }

  lemma CallsAreTimed(plan: seq<Limit>, now: int, a: Algorithm)
    requires ValidPlan(plan)
    ensures forall i :: 0 <= i < |Calls(plan, now, a)| ==>
      TimerStep(Calls(plan, now, a)[i]) && Calls(plan, now, a)[i].now == now
  {
  }

  lemma {:induction false} JoinTimed(run: seq<Timed>, more: seq<Timed>, now: int)
    requires TimerRun(run) && forall i :: 0 <= i < |run| ==> run[i].now <= now
    requires forall i :: 0 <= i < |more| ==> TimerStep(more[i]) && more[i].now == now
    ensures TimerRun(run + more) && forall i :: 0 <= i < |run + more| ==> (run + more)[i].now <= now
  {
  }

  lemma {:induction false} TraceIsTimed(c: Config, ops: seq<Op>, a: Algorithm, t: int)
    requires ValidOps(c, ops) && forall i :: 0 <= i < |ops| ==> ops[i].now <= t
    ensures TimerRun(Trace(c, ops, a)) && forall i :: 0 <= i < |Trace(c, ops, a)| ==> Trace(c, ops, a)[i].now <= t
  {
    if ops != [] {
      var op := ops[|ops| - 1];
      TraceIsTimed(c, ops[..|ops| - 1], a, op.now);
      if op.Ask? {
        PlanIsValid(c, op.q, op.o);
        CallsAreTimed(Plan(c, op.q, op.o), op.now, a);
      }
      JoinTimed(Trace(c, ops[..|ops| - 1], a), OpCalls(c, op, a), op.now);
    }
  }

  // One request, as the token buckets see it after the run `run`.
  lemma {:induction false} PlanOnBuckets(bs: TB.Buckets, run: seq<Timed>, s: State, plan: seq<Limit>, now: int,
                                         key: string, p: Policy)
    requires ValidPlan(plan) && TimerRun(run) && (forall i :: 0 <= i < |run| ==> run[i].now <= now)
    requires s.buckets == TB.Play(bs, run) && p.algorithm == Algorithm.TokenBucket
    ensures
      var (s', rs) := UseAll(s, plan, now);
      var run' := run + Calls(plan, now, Algorithm.TokenBucket);
      && TimerRun(run') && s'.buckets == TB.Play(bs, run')
      && TB.Admissions(bs, run', key) >=
         TB.Admissions(bs, run, key) + if AllAllowed(rs) && Uses(plan, key, p) then 1 else 0
  {
    CallsAreTimed(plan, now, Algorithm.TokenBucket);
    JoinTimed(run, Calls(plan, now, Algorithm.TokenBucket), now);
    if plan == [] {
      assert run + Calls(plan, now, Algorithm.TokenBucket) == run;
    } else {
      var n := |plan| - 1;
      var before := run + Calls(plan[..n], now, Algorithm.TokenBucket);
      assert run + Calls(plan, now, Algorithm.TokenBucket) == before + LimitCalls(plan[n], now);
      hide TB.Admissions, TB.Play, Uses, AllAllowed, TimerRun, UseLimit, Calls, LimitCalls;
      PlanOnBuckets(bs, run, s, plan[..n], now, key, p);
      var (s1, rs1) := UseAll(s, plan[..n], now);
      UsesNext(plan, key, p);
      AllAllowedNext(rs1, UseLimit(s1, plan[n], now).1);
      LimitOnBuckets(bs, before, s1, plan[n], now, key, p);
    }
  }

  function LimitCalls(l: Limit, now: int): seq<Timed> {
    if l.policy.algorithm == Algorithm.TokenBucket then [Timed(Consume(l.key, l.policy, now), now)] else []
  }

  // One limit of a request, as the token buckets see it.
  lemma {:induction false} LimitOnBuckets(bs: TB.Buckets, run: seq<Timed>, s: State, l: Limit, now: int, key: string,
                                          p: Policy)
    requires TimerRun(run) && TimerRun(run + LimitCalls(l, now))
    requires l.policy.Valid() && s.buckets == TB.Play(bs, run) && p.algorithm == Algorithm.TokenBucket
    ensures
      var (s', r) := UseLimit(s, l, now);
      var run' := run + LimitCalls(l, now);
      && s'.buckets == TB.Play(bs, run')
      && TB.Admissions(bs, run', key) >=
         TB.Admissions(bs, run, key) + if r.result.allowed && l.key == key && l.policy == p then 1 else 0
  {
    if l.policy.algorithm == Algorithm.TokenBucket {
      TB.PlaySnoc(bs, run, Timed(Consume(l.key, l.policy, now), now), key);
    } else {
      assert run + [] == run;
    }
  }

  lemma {:induction false} UsesNext(plan: seq<Limit>, key: string, p: Policy)
    requires plan != []
    ensures Uses(plan, key, p) ==>
      Uses(plan[..|plan| - 1], key, p) || (plan[|plan| - 1].key == key && plan[|plan| - 1].policy == p)
  {
    var n := |plan| - 1;
    if Uses(plan, key, p) {
      var i :| 0 <= i < |plan| && plan[i].key == key && plan[i].policy == p;
      if i < n {
        assert plan[..n][i] == plan[i];
      }
    }
  }

  lemma AllAllowedNext(rs: seq<AppliedLimit>, r: AppliedLimit)
    ensures AllAllowed(rs + [r]) <==> AllAllowed(rs) && r.result.allowed
  {
    if AllAllowed(rs + [r]) {
      assert (rs + [r])[|rs|] == r;
      assert forall i :: 0 <= i < |rs| ==> rs[i] == (rs + [r])[i];
    }
  }

  // One request, as the sliding windows see it after the run `run`.
  lemma {:induction false} PlanOnWindows(run: seq<Timed>, s: State, plan: seq<Limit>, now: int, key: string,
                                         p: Policy, x: int)
    requires ValidPlan(plan)
    requires s.windows == SW.Play(run) && p.algorithm == Algorithm.SlidingWindow
    ensures
      var (s', rs) := UseAll(s, plan, now);
      var run' := run + Calls(plan, now, Algorithm.SlidingWindow);
      && s'.windows == SW.Play(run')
      && SW.CountSpan(SW.AdmittedTimes(run', key), x, p.windowMs) >=
         SW.CountSpan(SW.AdmittedTimes(run, key), x, p.windowMs)
          + if AllAllowed(rs) && Uses(plan, key, p) && x <= now < x + p.windowMs then 1 else 0
  {
    if plan == [] {
      assert run + Calls(plan, now, Algorithm.SlidingWindow) == run;
    } else {
      var n := |plan| - 1;
      var before := run + Calls(plan[..n], now, Algorithm.SlidingWindow);
      hide SW.CountSpan, SW.AdmittedTimes, SW.Play, SW.After, Uses, AllAllowed;
      PlanOnWindows(run, s, plan[..n], now, key, p, x);
      var (s1, rs1) := UseAll(s, plan[..n], now);
      var (s2, r) := UseLimit(s1, plan[n], now);
      UsesNext(plan, key, p);
      AllAllowedNext(rs1, r);
      if plan[n].policy.algorithm == Algorithm.SlidingWindow {
        var e := Timed(Consume(plan[n].key, plan[n].policy, now), now);
        assert run + Calls(plan, now, Algorithm.SlidingWindow) == before + [e];
        SW.PlaySnoc(before, e, key);
        SW.CountSpanSnoc(SW.AdmittedTimes(before, key), now, x, p.windowMs);
      }
    }
  }

  // A request that is checked uses its whole plan, and is accepted when every limit admits it.
  lemma CheckedRequest(c: Config, s: State, q: Request, o: Option<Override>, skip: bool, now: int) returns (s1: State)
    requires ValidCall(c, o) && !Bypasses(c, q, skip)
    ensures ValidPlan(Plan(c, q, o)) && s1.buckets == s.buckets && s1.windows == s.windows
    ensures
      var (s2, rs) := UseAll(s1, Plan(c, q, o), now);
      var (s', d) := CheckStep(c, s, q, o, skip, now);
      && s'.buckets == s2.buckets && s'.windows == s2.windows
      && (d.result.allowed <==> AllAllowed(rs))
  {
    hide UseAll, Plan, ChangeIn;
    PlanIsValid(c, q, o);
    s1 := s.(books := s.books.(total := s.books.total + 1));
    var rs := UseAll(s1, Plan(c, q, o), now).1;
    UseAllAppliesAll(s1, Plan(c, q, o), now);
    var i := DecisionExact(rs);
  }

  lemma {:induction false} OpOnBuckets(c: Config, bs: TB.Buckets, run: seq<Timed>, s: State, op: Op, key: string,
                                       p: Policy)
    requires op.Ask? ==> ValidCall(c, op.o)
    requires TimerRun(run) && (forall i :: 0 <= i < |run| ==> run[i].now <= op.now)
    requires s.buckets == TB.Play(bs, run) && p.algorithm == Algorithm.TokenBucket
    ensures
      var run' := run + OpCalls(c, op, Algorithm.TokenBucket);
      && TimerRun(run') && Execute(c, s, op).buckets == TB.Play(bs, run')
      && TB.Admissions(bs, run', key) >= TB.Admissions(bs, run, key)
          + if Accepts(c, s, op) && Uses(Plan(c, op.q, op.o), key, p) then 1 else 0
  {
    hide UseAll, Plan, Calls, AllAllowed, Uses, TB.Play, TB.Admissions;
    match op
    case Timer(now) =>
      var e := Timed(Prune(now - MAX_IDLE_MS), now);
      JoinTimed(run, [e], now);
      TB.PlaySnoc(bs, run, e, key);
    case Ask(q, o, skip, now) =>
      if Bypasses(c, q, skip) {
        assert run + [] == run;
      } else {
        var s1 := CheckedRequest(c, s, q, o, skip, now);
        PlanOnBuckets(bs, run, s1, Plan(c, q, o), now, key, p);
      }
  }

  lemma OpOnWindows(c: Config, run: seq<Timed>, s: State, op: Op, key: string, p: Policy, x: int)
    requires op.Ask? ==> ValidCall(c, op.o)
    requires s.windows == SW.Play(run) && p.algorithm == Algorithm.SlidingWindow
    ensures
      var run' := run + OpCalls(c, op, Algorithm.SlidingWindow);
      && Execute(c, s, op).windows == SW.Play(run')
      && SW.CountSpan(SW.AdmittedTimes(run', key), x, p.windowMs) >=
         SW.CountSpan(SW.AdmittedTimes(run, key), x, p.windowMs)
          + if Accepts(c, s, op) && Uses(Plan(c, op.q, op.o), key, p) && x <= op.now < x + p.windowMs then 1 else 0
  {
    hide UseAll, Plan, Calls, AllAllowed, Uses, SW.Play, SW.AdmittedTimes, SW.CountSpan;
    match op
    case Timer(now) =>
      SW.PlaySnoc(run, Timed(Prune(now - MAX_IDLE_MS), now), key);
    case Ask(q, o, skip, now) =>
      if Bypasses(c, q, skip) {
        assert run + [] == run;
      } else {
        var s1 := CheckedRequest(c, s, q, o, skip, now);
        PlanOnWindows(run, s1, Plan(c, q, o), now, key, p, x);
      }
  }

  /** The token buckets of a run are those of its trace, and see every accepted request as admitted. */
  lemma {:induction false} RunOnBuckets(c: Config, s: State, ops: seq<Op>, key: string, p: Policy)
    requires ValidOps(c, ops) && p.algorithm == Algorithm.TokenBucket
    ensures
      var run := Trace(c, ops, Algorithm.TokenBucket);
      && TimerRun(run) && RunOps(c, s, ops).buckets == TB.Play(s.buckets, run)
      && TB.Admissions(s.buckets, run, key) >= |AcceptedTimes(c, s, ops, key, p)|
  {
    hide Execute, Accepts, Uses, OpCalls;
    if ops != [] {
      var n := |ops| - 1;
      RunOnBuckets(c, s, ops[..n], key, p);
      TraceIsTimed(c, ops[..n], Algorithm.TokenBucket, ops[n].now);
      OpOnBuckets(c, s.buckets, Trace(c, ops[..n], Algorithm.TokenBucket), RunOps(c, s, ops[..n]), ops[n], key, p);
    }
  }

  /** The sliding windows of a run are those of its trace, and see every accepted request as admitted. */
  lemma {:induction false} RunOnWindows(c: Config, r: Registry, ops: seq<Op>, key: string, p: Policy, x: int)
    requires ValidOps(c, ops) && p.algorithm == Algorithm.SlidingWindow
    ensures
      var run := Trace(c, ops, Algorithm.SlidingWindow);
      && RunOps(c, Initial(r), ops).windows == SW.Play(run)
      && SW.CountSpan(SW.AdmittedTimes(run, key), x, p.windowMs)
         >= SW.CountSpan(AcceptedTimes(c, Initial(r), ops, key, p), x, p.windowMs)
  {
    hide Execute, Accepts, Uses, OpCalls;
    if ops != [] {
      var n := |ops| - 1;
      RunOnWindows(c, r, ops[..n], key, p, x);
      SW.CountSpanSnoc(AcceptedTimes(c, Initial(r), ops[..n], key, p), ops[n].now, x, p.windowMs);
      OpOnWindows(c, Trace(c, ops[..n], Algorithm.SlidingWindow), RunOps(c, Initial(r), ops[..n]), ops[n], key, p, x);
    }
  }

  // Limits with this key always have this policy.
  ghost predicate KeyHasPolicy(c: Config, key: string, p: Policy) {
    forall q: Request, o: Option<Override>, i :: 0 <= i < |Plan(c, q, o)| && Plan(c, q, o)[i].key == key ==>
      Plan(c, q, o)[i].policy == p
  }

  /** IP keys and user keys never meet another scope's keys, so each has one policy. */
  lemma ScopeKeysHaveOnePolicy(c: Config, ip: string, user: string)
    ensures KeyHasPolicy(c, IpKey(ip), c.ip) && KeyHasPolicy(c, UserKey(user), c.user)
  {
    forall q: Request, o: Option<Override>, i | 0 <= i < |Plan(c, q, o)|
      ensures Plan(c, q, o)[i].key == IpKey(ip) ==> Plan(c, q, o)[i].policy == c.ip
      ensures Plan(c, q, o)[i].key == UserKey(user) ==> Plan(c, q, o)[i].policy == c.user
    {
      var l := Plan(c, q, o)[i];
      assert IpKey(ip)[0] == 'i' && UserKey(user)[0] == 'u';
      assert l.key[0] == match l.scope case Ip => 'i' case User => 'u' case Endpoint => 'e';
    }
  }

  // Whenever a request of the run is subject to a limit with this key, the limit has this policy.
  ghost predicate OpKeepsPolicy(c: Config, op: Op, key: string, p: Policy) {
    op.Ask? ==>
      forall i :: 0 <= i < |Plan(c, op.q, op.o)| && Plan(c, op.q, op.o)[i].key == key ==>
        Plan(c, op.q, op.o)[i].policy == p
  }

  ghost predicate RunKeepsPolicy(c: Config, ops: seq<Op>, key: string, p: Policy) {
    forall i :: 0 <= i < |ops| ==> OpKeepsPolicy(c, ops[i], key, p)
  }

  lemma OnePolicyIsKept(c: Config, ops: seq<Op>, key: string, p: Policy)
    requires KeyHasPolicy(c, key, p)
    ensures RunKeepsPolicy(c, ops, key, p)
  {
    hide Plan;
  }

  lemma {:induction false} CallsFollowPlan(plan: seq<Limit>, now: int, a: Algorithm, key: string, p: Policy)
    requires forall i :: 0 <= i < |plan| && plan[i].key == key ==> plan[i].policy == p
    ensures forall i :: 0 <= i < |Calls(plan, now, a)| ==>
      KeyUses(Calls(plan, now, a)[i], key, p) && Calls(plan, now, a)[i].event.Consume?
  {
    if plan != [] {
      CallsFollowPlan(plan[..|plan| - 1], now, a, key, p);
    }
  }

  lemma {:induction false} TraceIsSteady(c: Config, ops: seq<Op>, a: Algorithm, key: string, p: Policy)
    requires ValidOps(c, ops) && RunKeepsPolicy(c, ops, key, p) && p.Valid() && p.windowMs <= MAX_IDLE_MS + 1
    ensures forall i :: 0 <= i < |Trace(c, ops, a)| ==>
      KeyUses(Trace(c, ops, a)[i], key, p) && PruneSafe(p, Trace(c, ops, a)[i])
  {
    if ops != [] {
      var op := ops[|ops| - 1];
      TraceIsSteady(c, ops[..|ops| - 1], a, key, p);
      assert OpKeepsPolicy(c, op, key, p);
      if op.Ask? {
        CallsFollowPlan(Plan(c, op.q, op.o), op.now, a, key, p);
      }
    }
  }

  lemma {:induction false} TraceStartsAt(c: Config, ops: seq<Op>, a: Algorithm, s: int)
    requires ValidOps(c, ops) && forall i :: 0 <= i < |ops| ==> s <= ops[i].now
    ensures forall i :: 0 <= i < |Trace(c, ops, a)| ==> s <= Trace(c, ops, a)[i].now
  {
    if ops != [] {
      var op := ops[|ops| - 1];
      TraceStartsAt(c, ops[..|ops| - 1], a, s);
      if op.Ask? {
        PlanIsValid(c, op.q, op.o);
        CallsAreTimed(Plan(c, op.q, op.o), op.now, a);
      }
    }
  }

  // A run and a stretch of it: `pre` up to the moment s, then `ops` up to t.
  ghost predicate Stretch(c: Config, pre: seq<Op>, ops: seq<Op>, s: int, t: int) {
    && ValidOps(c, pre + ops) && ValidOps(c, pre) && ValidOps(c, ops) && s <= t
    && (forall i :: 0 <= i < |pre| ==> pre[i].now <= s)
    && (forall i :: 0 <= i < |ops| ==> s <= ops[i].now <= t)
  }

  // What a policy promises of the times, in a stretch from s to t, at which it let requests through.
  ghost predicate Obeys(times: seq<int>, p: Policy, s: int, t: int) {
    match p.algorithm
    case TokenBucket => |times| * p.windowMs <= p.limit * p.windowMs + (t - s) * p.limit
    case SlidingWindow => forall x :: SW.CountSpan(times, x, p.windowMs) <= p.limit
  }

  // Whatever came before, the bucket of a key under one policy is settled at the start of the stretch.
  lemma {:induction false} SettledAfter(c: Config, r: Registry, pre: seq<Op>, key: string, p: Policy, s: int)
    requires ValidOps(c, pre) && forall i :: 0 <= i < |pre| ==> pre[i].now <= s
    requires RunKeepsPolicy(c, pre, key, p) && p.Valid() && p.windowMs <= MAX_IDLE_MS + 1
    requires p.algorithm == Algorithm.TokenBucket
    ensures TB.Settled(RunOps(c, Initial(r), pre).buckets, key, p, s)
  {
    var a := Algorithm.TokenBucket;
    var start := if pre == [] then s else pre[0].now;
    TraceIsSteady(c, pre, a, key, p);
    TraceIsTimed(c, pre, a, s);
    TraceStartsAt(c, pre, a, start);
    RunOnBuckets(c, Initial(r), pre, key, p);
    TB.AdmissionsSpendLevel(map[], Trace(c, pre, a), key, p, start, s);
  }

  lemma {:induction false} StretchOnBuckets(c: Config, r: Registry, pre: seq<Op>, ops: seq<Op>, key: string, p: Policy,
                                            s: int, t: int)
    requires Stretch(c, pre, ops, s, t)
    requires RunKeepsPolicy(c, pre, key, p) && RunKeepsPolicy(c, ops, key, p)
    requires p.Valid() && p.windowMs <= MAX_IDLE_MS + 1
    requires p.algorithm == Algorithm.TokenBucket
    ensures
      |AcceptedTimes(c, RunOps(c, Initial(r), pre), ops, key, p)| * p.windowMs
      <= p.limit * p.windowMs + (t - s) * p.limit
  {
    var a := Algorithm.TokenBucket;
    var from := RunOps(c, Initial(r), pre);
    var run := Trace(c, ops, a);
    SettledAfter(c, r, pre, key, p, s);
    TraceIsSteady(c, ops, a, key, p);
    TraceIsTimed(c, ops, a, t);
    TraceStartsAt(c, ops, a, s);
    RunOnBuckets(c, from, ops, key, p);
    TB.EveryStretchIsBounded(from.buckets, run, key, p, s, t);
    MulMonotone(|AcceptedTimes(c, from, ops, key, p)|, TB.Admissions(from.buckets, run, key), p.windowMs);
  }

  // A run goes on from where its first part led.
  lemma {:induction false} RunsJoin(c: Config, s: State, pre: seq<Op>, ops: seq<Op>, key: string, p: Policy)
    requires ValidOps(c, pre + ops) && ValidOps(c, pre) && ValidOps(c, ops)
    ensures RunOps(c, s, pre + ops) == RunOps(c, RunOps(c, s, pre), ops)
    ensures
      AcceptedTimes(c, s, pre + ops, key, p) ==
      AcceptedTimes(c, s, pre, key, p) + AcceptedTimes(c, RunOps(c, s, pre), ops, key, p)
    decreases |ops|
  {
    hide Execute, Accepts, Uses;
    if ops == [] {
      assert pre + ops == pre;
    } else {
      var n := |ops| - 1;
      assert (pre + ops)[..|pre + ops| - 1] == pre + ops[..n] && (pre + ops)[|pre + ops| - 1] == ops[n];
      hide Plan, Execute;
      RunsJoin(c, s, pre, ops[..n], key, p);
    }
  }

  lemma {:induction false} CountSpanConcat(a: seq<int>, b: seq<int>, x: int, span: int)
    ensures SW.CountSpan(a + b, x, span) == SW.CountSpan(a, x, span) + SW.CountSpan(b, x, span)
  {
    if b == [] {
      assert a + b == a;
    } else {
      var n := |b| - 1;
      assert (a + b)[..|a + b| - 1] == a + b[..n];
      CountSpanConcat(a, b[..n], x, span);
    }
  }

  lemma {:induction false} RunOnSpans(c: Config, r: Registry, ops: seq<Op>, key: string, p: Policy, x: int)
    requires ValidOps(c, ops)
    requires RunKeepsPolicy(c, ops, key, p) && p.Valid() && p.windowMs <= MAX_IDLE_MS + 1
    requires p.algorithm == Algorithm.SlidingWindow
    ensures SW.CountSpan(AcceptedTimes(c, Initial(r), ops, key, p), x, p.windowMs) <= p.limit
  {
    var a := Algorithm.SlidingWindow;
    TraceIsSteady(c, ops, a, key, p);
    TraceIsTimed(c, ops, a, if ops == [] then 0 else ops[|ops| - 1].now);
    RunOnWindows(c, r, ops, key, p, x);
    SW.EverySpanIsBounded(Trace(c, ops, a), key, p, x);
  }

  lemma PartsKeepPolicy(c: Config, pre: seq<Op>, ops: seq<Op>, key: string, p: Policy)
    requires RunKeepsPolicy(c, pre + ops, key, p)
    ensures RunKeepsPolicy(c, pre, key, p) && RunKeepsPolicy(c, ops, key, p)
  {
    hide OpKeepsPolicy;
    assert forall i :: 0 <= i < |pre| ==> pre[i] == (pre + ops)[i];
    assert forall i :: 0 <= i < |ops| ==> ops[i] == (pre + ops)[|pre| + i];
  }

  lemma {:induction false} KeyObeys(c: Config, r: Registry, pre: seq<Op>, ops: seq<Op>, key: string, p: Policy,
                                    s: int, t: int)
    requires Stretch(c, pre, ops, s, t)
    requires RunKeepsPolicy(c, pre + ops, key, p) && p.Valid() && p.windowMs <= MAX_IDLE_MS + 1
    ensures Obeys(AcceptedTimes(c, RunOps(c, Initial(r), pre), ops, key, p), p, s, t)
  {
    PartsKeepPolicy(c, pre, ops, key, p);
    match p.algorithm
    case TokenBucket => StretchOnBuckets(c, r, pre, ops, key, p, s, t);
    case SlidingWindow =>
      var times := AcceptedTimes(c, RunOps(c, Initial(r), pre), ops, key, p);
      forall x
        ensures SW.CountSpan(times, x, p.windowMs) <= p.limit
      {
        RunsJoin(c, Initial(r), pre, ops, key, p);
        CountSpanConcat(AcceptedTimes(c, Initial(r), pre, key, p), times, x, p.windowMs);
        RunOnSpans(c, r, pre + ops, key, p, x);
      }
  }

  /**
   Accepted requests obey the IP bound and the user bound at once, over any stretch of any run: the
   requests accepted from one address keep within the IP policy and those accepted for one user within the
   user policy, whichever algorithm each uses, whatever came before or is asked besides, and whatever the
   timer prunes.
   */
  lemma {:induction false} AcceptedObeyBothBounds(c: Config, r: Registry, pre: seq<Op>, ops: seq<Op>,
                                                  ip: string, user: string, s: int, t: int)
    requires Stretch(c, pre, ops, s, t)
    requires c.ip.windowMs <= MAX_IDLE_MS + 1 && c.user.windowMs <= MAX_IDLE_MS + 1
    ensures
      var from := RunOps(c, Initial(r), pre);
      && Obeys(AcceptedTimes(c, from, ops, IpKey(ip), c.ip), c.ip, s, t)
      && Obeys(AcceptedTimes(c, from, ops, UserKey(user), c.user), c.user, s, t)
  {
    ScopeKeysHaveOnePolicy(c, ip, user);
    OnePolicyIsKept(c, pre + ops, IpKey(ip), c.ip);
    OnePolicyIsKept(c, pre + ops, UserKey(user), c.user);
    KeyObeys(c, r, pre, ops, IpKey(ip), c.ip, s, t);
    KeyObeys(c, r, pre, ops, UserKey(user), c.user, s, t);
  }

  // Requests of the run that fall under an endpoint policy and count under this key fall under this policy.
  ghost predicate EndpointHasPolicy(c: Config, ops: seq<Op>, key: string, p: Policy) {
    forall i :: 0 <= i < |ops| && ops[i].Ask? ==>
      var e := EndpointPolicyOf(c, ops[i].q, ops[i].o);
      e.Some? && EndpointKey(ops[i].q, e.value.byIp) == key ==> e.value.policy == p
  }

  /**
   The endpoint bound: over any stretch of any run, the requests accepted for one path and one caller keep
   within their policy, if it is one policy.
   */
  lemma {:induction false} AcceptedObeyEndpointBound(c: Config, r: Registry, pre: seq<Op>, ops: seq<Op>,
                                                     q: Request, byIp: bool, p: Policy, s: int, t: int)
    requires Stretch(c, pre, ops, s, t) && EndpointHasPolicy(c, pre + ops, EndpointKey(q, byIp), p)
    requires p.Valid() && p.windowMs <= MAX_IDLE_MS + 1
    ensures Obeys(AcceptedTimes(c, RunOps(c, Initial(r), pre), ops, EndpointKey(q, byIp), p), p, s, t)
  {
    var key := EndpointKey(q, byIp);
    forall i | 0 <= i < |pre + ops|
      ensures OpKeepsPolicy(c, (pre + ops)[i], key, p)
    {
      EndpointKeepsPolicy(c, pre + ops, i, q, byIp, p);
    }
    hide Stretch, Obeys, OpKeepsPolicy, EndpointHasPolicy, EndpointKey;
    KeyObeys(c, r, pre, ops, key, p, s, t);
  }

  // Only the limit of the endpoint counts under such a key.
  lemma {:induction false} EndpointKeepsPolicy(c: Config, ops: seq<Op>, i: nat, q: Request, byIp: bool, p: Policy)
    requires i < |ops| && EndpointHasPolicy(c, ops, EndpointKey(q, byIp), p)
    ensures OpKeepsPolicy(c, ops[i], EndpointKey(q, byIp), p)
  {
    var key, op := EndpointKey(q, byIp), ops[i];
    assert key[0] == 'e';
    if op.Ask? {
      var plan := Plan(c, op.q, op.o);
      forall j | 0 <= j < |plan|
        ensures plan[j].key == key ==> plan[j].policy == p
      {
        var l := plan[j];
        assert l.key[0] == match l.scope case Ip => 'i' case User => 'u' case Endpoint => 'e';
      }
    }
  }

  /** Every request is subject to the limit of its address, and to that of its user if it has one. */
  lemma RequestUsesItsKeys(c: Config, q: Request, o: Option<Override>)
    ensures Uses(Plan(c, q, o), IpKey(ClientIp(q)), c.ip)
    ensures HasUser(q) ==> Uses(Plan(c, q, o), UserKey(q.userId.value), c.user)
  {
    assert Plan(c, q, o)[0].key == IpKey(ClientIp(q));
    if HasUser(q) {
      assert Plan(c, q, o)[1].key == UserKey(q.userId.value);
    }
  }
}
