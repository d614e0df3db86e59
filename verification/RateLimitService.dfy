/**
 The service that composes the per-IP, per-user and per-endpoint limits of a request and keeps the
 books (src/rate-limit/rate-limit.service.ts). All limits of one request are taken at one clock reading.
 */
module RateLimitService {
  import opened Common
  import opened RateLimitTypes
  import opened Metrics
  import TB = TokenBucket
  import SW = SlidingWindow

  /* ---------- Requests, configuration and the limits a request is subject to ---------- */

  datatype Scope = Ip | User | Endpoint

  datatype EndpointPolicy = EndpointPolicy(path: string, verb: Option<string>, byIp: bool, policy: Policy)

  datatype Override = Override(limit: int, windowMs: int, algorithm: Option<Algorithm>, byIp: bool)

  datatype Config = Config(
    enabled: bool, ip: Policy, user: Policy, endpoints: seq<EndpointPolicy>,
    whitelistedIps: set<string>, whitelistedUsers: set<string>, whitelistedKeys: set<string>)
  {
    ghost predicate Valid() {
      ip.Valid() && user.Valid() && forall i :: 0 <= i < |endpoints| ==> endpoints[i].policy.Valid()
    }
  }

  datatype Request = Request(
    verb: Option<string>, ip: Option<string>, remoteAddress: Option<string>, url: Option<string>,
    originalUrl: Option<string>, routePath: Option<string>, userId: Option<string>, apiKey: Option<string>)

  // One limit to apply: its scope, the full key it counts under, its policy.
  datatype Limit = Limit(scope: Scope, key: string, policy: Policy)

  datatype AppliedLimit = AppliedLimit(scope: Scope, algorithm: Algorithm, result: Result)

  datatype Decision = Decision(result: Result, bypassed: bool, scope: Option<Scope>, algorithm: Option<Algorithm>)

  function ScopeName(s: Scope): string {
    match s
    case Ip => "ip"
    case User => "user"
    case Endpoint => "endpoint"
  }

  function AlgorithmName(a: Algorithm): string {
    match a
    case TokenBucket => "token-bucket"
    case SlidingWindow => "sliding-window"
  }

  function OrElse(o: Option<string>, default: string): string {
    if o.Some? then o.value else default
  }

  function ClientIp(q: Request): string {
    if q.ip.Some? then q.ip.value else OrElse(q.remoteAddress, "unknown")
  }

  // The part of an address before its query.
  function WithoutQuery(s: string): string {
    if s == [] || s[0] == '?' then [] else [s[0]] + WithoutQuery(s[1..])
  }

  function RequestPath(q: Request): string {
    if q.routePath.Some? && q.routePath.value != "" then q.routePath.value
    else WithoutQuery(if q.originalUrl.Some? then q.originalUrl.value else OrElse(q.url, "/"))
  }

  // An empty user id counts as none, except for the whitelist.
  predicate HasUser(q: Request) {
    q.userId.Some? && q.userId.value != ""
  }

  predicate IsWhitelisted(c: Config, q: Request) {
    || ClientIp(q) in c.whitelistedIps
    || (q.userId.Some? && q.userId.value in c.whitelistedUsers)
    || (q.apiKey.Some? && q.apiKey.value in c.whitelistedKeys)
  }

  predicate Covers(e: EndpointPolicy, verb: string, path: string) {
    && (e.verb.Some? && e.verb.value != "" ==> e.verb.value == verb)
    && (if e.path != "" && e.path[|e.path| - 1] == '*' then e.path[..|e.path| - 1] <= path else path == e.path)
  }

  // The first configured policy that covers the request.
  function FindEndpoint(es: seq<EndpointPolicy>, verb: string, path: string): Option<EndpointPolicy> {
    if es == [] then None
    else if Covers(es[0], verb, path) then Some(es[0])
    else FindEndpoint(es[1..], verb, path)
  }

  function EndpointPolicyOf(c: Config, q: Request, o: Option<Override>): Option<EndpointPolicy> {
    if o.Some? then
      Some(EndpointPolicy(RequestPath(q), None, o.value.byIp,
        Policy(o.value.limit, o.value.windowMs,
               if o.value.algorithm.Some? then o.value.algorithm.value else Algorithm.TokenBucket)))
    else FindEndpoint(c.endpoints, OrElse(q.verb, "GET"), RequestPath(q))
  }

  function Identity(q: Request, byIp: bool): string {
    if byIp || !HasUser(q) then "ip:" + ClientIp(q) else "user:" + q.userId.value
  }

  function IpKey(ip: string): string {
    "ip:" + ("ip:" + ip)
  }

  function UserKey(id: string): string {
    "user:" + ("user:" + id)
  }

  function EndpointKey(q: Request, byIp: bool): string {
    "endpoint:" + ("endpoint:" + RequestPath(q) + ":" + Identity(q, byIp))
  }

  // The limits of a request, in the order in which they are applied.
  function Plan(c: Config, q: Request, o: Option<Override>): seq<Limit> {
    var e := EndpointPolicyOf(c, q, o);
    [Limit(Ip, IpKey(ClientIp(q)), c.ip)]
    + (if HasUser(q) then [Limit(User, UserKey(q.userId.value), c.user)] else [])
    + (if e.Some? then [Limit(Endpoint, EndpointKey(q, e.value.byIp), e.value.policy)] else [])
  }

  predicate Bypasses(c: Config, q: Request, skip: bool) {
    !c.enabled || skip || IsWhitelisted(c, q)
  }

  /* ---------- The state and its steps ---------- */

  datatype Tally = Tally(allowed: nat, rejected: nat)

  datatype Tallies = Tallies(ip: Tally, user: Tally, endpoint: Tally)
  {
    function At(s: Scope): Tally {
      match s
      case Ip => ip
      case User => user
      case Endpoint => endpoint
    }

    function Put(s: Scope, t: Tally): Tallies {
      match s
      case Ip => this.(ip := t)
      case User => this.(user := t)
      case Endpoint => this.(endpoint := t)
    }
  }

  const NOTHING_YET := Tallies(Tally(0, 0), Tally(0, 0), Tally(0, 0))

  datatype Books = Books(
    total: nat, allowed: nat, rejected: nat, bypassed: nat, byScope: Tallies, metrics: Registry)

  datatype State = State(buckets: TB.Buckets, windows: SW.Windows, books: Books)

  const CHECKS := "rate_limit_checks_total"
  const EXCEEDED := "rate_limit_exceeded_total"
  const BYPASSED := "rate_limit_bypassed_total"
  const ACTIVE_KEYS := "rate_limit_active_keys"

  function CheckLabels(s: Scope, a: Algorithm, allowed: bool): Labels {
    map["scope" := ScopeName(s), "algorithm" := AlgorithmName(a),
      "outcome" := if allowed then "allowed" else "rejected"]
  }

  function ScopeLabels(s: Scope): Labels {
    map["scope" := ScopeName(s)]
  }

  function ReasonLabels(reason: string): Labels {
    map["reason" := reason]
  }

  function Bump(t: Tally, allowed: bool): Tally {
    if allowed then t.(allowed := t.allowed + 1) else t.(rejected := t.rejected + 1)
  }

  function RecordCheck(b: Books, s: Scope, a: Algorithm, allowed: bool): Books {
    var m := ChangeIn(b.metrics, CHECKS, CheckLabels(s, a, allowed), Add(1));
    b.(byScope := b.byScope.Put(s, Bump(b.byScope.At(s), allowed)),
       metrics := if allowed then m else ChangeIn(m, EXCEEDED, ScopeLabels(s), Add(1)))
  }

  function ConsumeLimit(bs: TB.Buckets, ws: SW.Windows, l: Limit, now: int): (TB.Buckets, SW.Windows, Result)
    requires l.policy.Valid()
  {
    if l.policy.algorithm.SlidingWindow? then
      var (ws', r) := SW.ConsumeStep(ws, l.key, l.policy, now);
      (bs, ws', r)
    else
      var (bs', r) := TB.ConsumeStep(bs, l.key, l.policy, now);
      (bs', ws, r)
  }

  function UseLimit(s: State, l: Limit, now: int): (State, AppliedLimit)
    requires l.policy.Valid()
  {
    var (bs, ws, r) := ConsumeLimit(s.buckets, s.windows, l, now);
    (State(bs, ws, RecordCheck(s.books, l.scope, l.policy.algorithm, r.allowed)),
     AppliedLimit(l.scope, l.policy.algorithm, r))
  }

  ghost predicate ValidPlan(plan: seq<Limit>) {
    forall i :: 0 <= i < |plan| ==> plan[i].policy.Valid()
  }

  function UseAll(s: State, plan: seq<Limit>, now: int): (r: (State, seq<AppliedLimit>))
    requires ValidPlan(plan)
    ensures |r.1| == |plan|
  {
    if plan == [] then (s, []) else
    var n := |plan| - 1;
    var (s', rs) := UseAll(s, plan[..n], now);
    var (s'', r) := UseLimit(s', plan[n], now);
    (s'', rs + [r])
  }

  // The first denied limit, if any.
  function FindDenied(rs: seq<AppliedLimit>): Option<AppliedLimit> {
    if rs == [] then None
    else if !rs[0].result.allowed then Some(rs[0])
    else FindDenied(rs[1..])
  }

  // The candidate has a smaller share of its limit left.
  predicate Tighter(a: AppliedLimit, b: AppliedLimit) {
    a.result.remaining * b.result.limit < b.result.remaining * a.result.limit
  }

  function MostRestrictive(rs: seq<AppliedLimit>): AppliedLimit
    requires rs != []
  {
    var n := |rs| - 1;
    if n == 0 then rs[0] else
    var selected := MostRestrictive(rs[..n]);
    if Tighter(rs[n], selected) then rs[n] else selected
  }

  function Decide(rs: seq<AppliedLimit>): Decision
    requires rs != []
  {
    var denied := FindDenied(rs);
    var l := if denied.Some? then denied.value else MostRestrictive(rs);
    Decision(l.result, false, Some(l.scope), Some(l.algorithm))
  }

  function UpdateActiveKeys(s: State): State {
    s.(books := s.books.(metrics :=
      ChangeIn(s.books.metrics, ACTIVE_KEYS, map[], Put(|s.buckets| + |s.windows|))))
  }

  function BypassStep(s: State, reason: string, now: int): (State, Decision) {
    (s.(books := s.books.(bypassed := s.books.bypassed + 1,
        metrics := ChangeIn(s.books.metrics, BYPASSED, ReasonLabels(reason), Add(1)))),
     Decision(Result(true, 0, 0, now, 0), true, None, None))
  }

  ghost predicate ValidCall(c: Config, o: Option<Override>) {
    c.Valid() && (o.Some? ==> o.value.limit > 0 && o.value.windowMs > 0)
  }

  lemma PlanIsValid(c: Config, q: Request, o: Option<Override>)
    requires ValidCall(c, o)
    ensures ValidPlan(Plan(c, q, o)) && Plan(c, q, o) != []
  {
    FoundIsConfigured(c.endpoints, OrElse(q.verb, "GET"), RequestPath(q));
  }

  lemma {:induction false} FoundIsConfigured(es: seq<EndpointPolicy>, verb: string, path: string)
    ensures
      var e := FindEndpoint(es, verb, path);
      e.Some? ==> exists i :: 0 <= i < |es| && es[i] == e.value
  {
    if es != [] && !Covers(es[0], verb, path) {
      FoundIsConfigured(es[1..], verb, path);
      var e := FindEndpoint(es[1..], verb, path);
      if e.Some? {
        var i :| 0 <= i < |es[1..]| && es[1..][i] == e.value;
        assert es[i + 1] == e.value;
      }
    }
  }

  function Counted(s: State): State {
    s.(books := s.books.(total := s.books.total + 1))
  }

  function CheckStep(c: Config, s: State, q: Request, o: Option<Override>, skip: bool, now: int): (State, Decision)
    requires ValidCall(c, o)
  {
    var s1 := Counted(s);
    if !c.enabled || skip then BypassStep(s1, "configuration", now)
    else if IsWhitelisted(c, q) then BypassStep(s1, "whitelist", now)
    else
      PlanIsValid(c, q, o);
      var (s2, rs) := UseAll(s1, Plan(c, q, o), now);
      SettleStep(s2, rs)
  }

  function SettleStep(s: State, rs: seq<AppliedLimit>): (State, Decision)
    requires rs != []
  {
    var b := s.books;
    var b' := if FindDenied(rs).Some? then b.(rejected := b.rejected + 1) else b.(allowed := b.allowed + 1);
    (UpdateActiveKeys(s.(books := b')), Decide(rs))
  }

  function PruneTick(s: State, now: int): State {
    var cutoff := now - MAX_IDLE_MS;
    UpdateActiveKeys(s.(buckets := TB.PruneStep(s.buckets, cutoff), windows := SW.PruneStep(s.windows, cutoff)))
  }

  /* ---------- The service object ---------- */

  class Service {
    const config: Config
    const tokenBucket: TB.TokenBucketRateLimiter
    const slidingWindow: SW.SlidingWindowRateLimiter
    const metrics: MetricsService
    var total: nat
    var allowed: nat
    var rejected: nat
    var bypassed: nat
    var byScope: Tallies

    ghost predicate Valid()
      reads tokenBucket, slidingWindow
    {
      config.Valid() && tokenBucket.Valid() && slidingWindow.Valid()
    }

    ghost function Abs(): State
      reads this, tokenBucket, tokenBucket.buckets.Values, slidingWindow, slidingWindow.windows.Values, metrics
    {
      State(tokenBucket.Contents(), slidingWindow.Contents(), BooksNow())
    }

    constructor (config: Config, metrics: MetricsService)
      requires config.Valid()
      modifies metrics
      ensures Valid() && this.config == config && this.metrics == metrics
      ensures Abs() == Initial(old(metrics.metrics))
    {
      this.config := config;
      this.metrics := metrics;
      tokenBucket := new TB.TokenBucketRateLimiter();
      slidingWindow := new SW.SlidingWindowRateLimiter();
      total, allowed, rejected, bypassed := 0, 0, 0, 0;
      byScope := NOTHING_YET;
      new;
      metrics.RegisterMetric(CHECKS);
      metrics.RegisterMetric(EXCEEDED);
      metrics.RegisterMetric(BYPASSED);
      metrics.RegisterMetric(ACTIVE_KEYS);
    }

    // The limiter that the policy's algorithm selects answers; the other one is left alone.
    method Consume(l: Limit, now: int) returns (r: Result)
      requires Valid() && l.policy.Valid()
      modifies tokenBucket, tokenBucket.buckets.Values, slidingWindow, slidingWindow.windows.Values
      ensures Valid()
      ensures fresh(tokenBucket.buckets.Values - old(tokenBucket.buckets.Values))
      ensures fresh(slidingWindow.windows.Values - old(slidingWindow.windows.Values))
      ensures (tokenBucket.Contents(), slidingWindow.Contents(), r) ==
        ConsumeLimit(old(tokenBucket.Contents()), old(slidingWindow.Contents()), l, now)
    {
      hide TB.ConsumeStep, SW.ConsumeStep;
      if l.policy.algorithm == Algorithm.SlidingWindow {
        r := slidingWindow.Consume(l.key, l.policy, now);
      } else {
        r := tokenBucket.Consume(l.key, l.policy, now);
      }
    }

    ghost function BooksNow(): Books
      reads this, metrics
    {
      Books(total, allowed, rejected, bypassed, byScope, metrics.metrics)
    }

    method Record(s: Scope, a: Algorithm, ok: bool)
      modifies this`byScope, metrics
      ensures BooksNow() == RecordCheck(old(BooksNow()), s, a, ok)
    {
      hide ChangeIn, CheckLabels, ScopeLabels;
      byScope := byScope.Put(s, Bump(byScope.At(s), ok));
      metrics.IncrementCounter(CHECKS, CheckLabels(s, a, ok), 1);
      if !ok {
        metrics.IncrementCounter(EXCEEDED, ScopeLabels(s), 1);
      }
    }

    method Apply(l: Limit, now: int) returns (r: AppliedLimit)
      requires Valid() && l.policy.Valid()
      modifies this`byScope, tokenBucket, tokenBucket.buckets.Values, slidingWindow, slidingWindow.windows.Values,
        metrics
      ensures Valid()
      ensures fresh(tokenBucket.buckets.Values - old(tokenBucket.buckets.Values))
      ensures fresh(slidingWindow.windows.Values - old(slidingWindow.windows.Values))
      ensures (Abs(), r) == UseLimit(old(Abs()), l, now)
    {
      hide ConsumeLimit, RecordCheck;
      var result := Consume(l, now);
      Record(l.scope, l.policy.algorithm, result.allowed);
      r := AppliedLimit(l.scope, l.policy.algorithm, result);
    }

    method Bypass(reason: string, now: int) returns (d: Decision)
      requires Valid()
      modifies this`bypassed, metrics
      ensures Valid()
      ensures (Abs(), d) == BypassStep(old(Abs()), reason, now)
    {
      bypassed := bypassed + 1;
      metrics.IncrementCounter(BYPASSED, ReasonLabels(reason), 1);
      d := Decision(Result(true, 0, 0, now, 0), true, None, None);
    }

    method UpdateActiveKeysMetric()
      requires Valid()
      modifies metrics
      ensures Valid()
      ensures Abs() == UpdateActiveKeys(old(Abs()))
    {
      hide ChangeIn;
      ghost var bs, ws := tokenBucket.Contents(), slidingWindow.Contents();
      SameSize(bs, tokenBucket.buckets);
      SameSize(ws, slidingWindow.windows);
      metrics.SetGauge(ACTIVE_KEYS, |tokenBucket.buckets| + |slidingWindow.windows|, map[]);
      assert tokenBucket.Contents() == bs && slidingWindow.Contents() == ws;
    }

    method Check(q: Request, o: Option<Override>, skip: bool, now: int) returns (d: Decision)
      requires Valid() && ValidCall(config, o)
      modifies this, tokenBucket, tokenBucket.buckets.Values, slidingWindow, slidingWindow.windows.Values, metrics
      ensures Valid()
      ensures fresh(tokenBucket.buckets.Values - old(tokenBucket.buckets.Values))
      ensures fresh(slidingWindow.windows.Values - old(slidingWindow.windows.Values))
      ensures (Abs(), d) == CheckStep(config, old(Abs()), q, o, skip, now)
    {
      hide UseAll, Plan, SettleStep, IsWhitelisted, BypassStep, ValidCall;
      total := total + 1;
      assert Abs() == Counted(old(Abs()));
      hide Counted;
      if !config.enabled || skip {
        d := Bypass("configuration", now);
        return;
      }
      if IsWhitelisted(config, q) {
        d := Bypass("whitelist", now);
        return;
      }

      var limits := ApplyAll(q, o, now);
      d := Settle(limits);
    }

    // The end of `Check`: the outcome is counted and the decision made.
    method Settle(limits: seq<AppliedLimit>) returns (d: Decision)
      requires Valid() && limits != []
      modifies this`allowed, this`rejected, metrics
      ensures Valid()
      ensures (Abs(), d) == SettleStep(old(Abs()), limits)
    {
      hide Decide, UpdateActiveKeys;
      var denied := FindDenied(limits);
      if denied.Some? {
        rejected := rejected + 1;
      } else {
        allowed := allowed + 1;
      }
      UpdateActiveKeysMetric();
      d := Decide(limits);
    }

    // The middle of `Check`: every limit of the request is applied, denied or not.
    method ApplyAll(q: Request, o: Option<Override>, now: int) returns (limits: seq<AppliedLimit>)
      requires Valid() && ValidCall(config, o)
      modifies this`byScope, tokenBucket, tokenBucket.buckets.Values, slidingWindow, slidingWindow.windows.Values,
        metrics
      ensures Valid()
      ensures fresh(tokenBucket.buckets.Values - old(tokenBucket.buckets.Values))
      ensures fresh(slidingWindow.windows.Values - old(slidingWindow.windows.Values))
      ensures limits != []
      ensures ValidPlan(Plan(config, q, o)) && (Abs(), limits) == UseAll(old(Abs()), Plan(config, q, o), now)
    {
      hide UseLimit, EndpointPolicyOf, IpKey, UserKey, EndpointKey, ClientIp;
      PlanIsValid(config, q, o);
      ghost var s, plan := Abs(), Plan(config, q, o);
      assert plan[..0] == [];
      limits := [];

      UseAllNext(s, plan, 0, now);
      var r := Apply(Limit(Ip, IpKey(ClientIp(q)), config.ip), now);
      limits := limits + [r];
      assert (Abs(), limits) == UseAll(s, plan[..1], now);

      if HasUser(q) {
        UseAllNext(s, plan, 1, now);
        r := Apply(Limit(User, UserKey(q.userId.value), config.user), now);
        limits := limits + [r];
      }
      assert (Abs(), limits) == UseAll(s, plan[..|limits|], now);

      var e := EndpointPolicyOf(config, q, o);
      if e.Some? {
        UseAllNext(s, plan, |limits|, now);
        r := Apply(Limit(Endpoint, EndpointKey(q, e.value.byIp), e.value.policy), now);
        limits := limits + [r];
      }
      assert plan[..|limits|] == plan;
    }

    method Tick(now: int)
      requires Valid()
      modifies tokenBucket, slidingWindow, metrics
      ensures Valid()
      ensures tokenBucket.buckets.Values <= old(tokenBucket.buckets.Values)
      ensures slidingWindow.windows.Values <= old(slidingWindow.windows.Values)
      ensures Abs() == PruneTick(old(Abs()), now)
    {
      hide TB.PruneStep, SW.PruneStep, UpdateActiveKeys;
      var cutoff := now - MAX_IDLE_MS;
      tokenBucket.PruneIdle(cutoff);
      slidingWindow.PruneIdle(cutoff);
      UpdateActiveKeysMetric();
    }
  }

  lemma SameSize<A, B>(m: map<string, A>, n: map<string, B>)
    requires m.Keys == n.Keys
    ensures |m| == |n|
  {
    assert |m| == |m.Keys| && |n| == |n.Keys|;
  }

  lemma {:induction false} UseAllNext(s: State, plan: seq<Limit>, i: nat, now: int)
    requires ValidPlan(plan) && i < |plan|
    ensures
      var (s', rs) := UseAll(s, plan[..i], now);
      var (s'', r) := UseLimit(s', plan[i], now);
      UseAll(s, plan[..i + 1], now) == (s'', rs + [r])
  {
    assert plan[..i + 1][..i] == plan[..i];
  }

  function Initial(r: Registry): State {
    State(map[], map[],
      Books(0, 0, 0, 0, NOTHING_YET,
        Register(Register(Register(Register(r, CHECKS), EXCEEDED), BYPASSED), ACTIVE_KEYS)))
  }
}
