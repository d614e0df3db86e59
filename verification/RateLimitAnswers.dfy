/** Who is let through, and which limits a request meets (src/rate-limit/rate-limit.service.ts). */
module RateLimitAnswers {
  import opened Common
  import opened RateLimitTypes
  import opened Metrics
  import opened RateLimitService
  import opened RateLimitDecisions
  import opened RateLimitTheorems
  import TB = TokenBucket
  import SW = SlidingWindow

  /* ---------- Bypassing ---------- */

  // The address of the request itself, else of its socket, else a fixed word.
  function AddressOf(q: Request): string {
    match (q.ip, q.remoteAddress)
    case (Some(ip), _) => ip
    case (None, Some(remote)) => remote
    case (None, None) => "unknown"
  }

  // What the configuration exempts, name by name.
  ghost predicate Exempt(c: Config, q: Request) {
    || AddressOf(q) in c.whitelistedIps
    || (exists id :: q.userId == Some(id) && id in c.whitelistedUsers)
    || (exists key :: q.apiKey == Some(key) && key in c.whitelistedKeys)
  }

  /**
   A request is bypassed if and only if the service is disabled, the call asks for it, or its address, its
   user or its API key is listed. Then it is let through, no limit is touched, and one bypass is counted
   under its reason.
   */
  lemma {:induction false} BypassExact(c: Config, s: State, q: Request, o: Option<Override>, skip: bool, now: int)
    requires ValidCall(c, o)
    ensures
      var (t, d) := CheckStep(c, s, q, o, skip, now);
      && (d.bypassed <==> !c.enabled || skip || Exempt(c, q))
      && (d.bypassed ==>
            && d.result == Result(true, 0, 0, now, 0) && d.scope.None? && d.algorithm.None?
            && t.buckets == s.buckets && t.windows == s.windows)
      && (!d.bypassed ==> d.scope.Some? && d.algorithm.Some?)
  {
    assert AddressOf(q) == ClientIp(q);
    if !Bypasses(c, q, skip) {
      CheckDecides(c, s, q, o, skip, now);
      hide Plan, UseAll, CheckStep, FindDenied, MostRestrictive;
    } else {
      hide Plan, UseAll, SettleStep, ChangeIn;
    }
  }

  // The words under which bypasses are counted.
  function Reason(c: Config, skip: bool): string {
    if c.enabled && !skip then "whitelist" else "configuration"
  }

  /** A bypass counts one for its reason, and a request that is not bypassed counts none. */
  lemma {:induction false} BypassCounted(c: Config, s: State, q: Request, o: Option<Override>, skip: bool, now: int,
                                         reason: string)
    requires ValidCall(c, o) && BYPASSED in s.books.metrics
    ensures
      var (t, d) := CheckStep(c, s, q, o, skip, now);
      MetricValueOf(t.books.metrics, BYPASSED, map["reason" := reason]) ==
      MetricValueOf(s.books.metrics, BYPASSED, map["reason" := reason]) +
        if d.bypassed && reason == Reason(c, skip) then 1 else 0
  {
    NamesDiffer();
    var labels := map["reason" := reason];
    hide MetricValueOf, ChangeIn;
    if Bypasses(c, q, skip) {
      assert ReasonLabels(reason) == labels;
      SameReason(Reason(c, skip), reason);
      ChangeInSeen(s.books.metrics, BYPASSED, ReasonLabels(Reason(c, skip)), Add(1), BYPASSED, labels);
    } else {
      LimitsCountNoBypass(c, s, q, o, skip, now, labels);
    }
  }

  lemma SameReason(a: string, b: string)
    ensures ReasonLabels(a) == ReasonLabels(b) <==> a == b
  {
    assert ReasonLabels(a)["reason"] == a && ReasonLabels(b)["reason"] == b;
  }

  // Limits and outcomes are counted elsewhere.
  lemma {:induction false} UseAllCountsNoBypass(s: State, plan: seq<Limit>, now: int, labels: Labels)
    requires ValidPlan(plan) && BYPASSED in s.books.metrics
    ensures
      var t := UseAll(s, plan, now).0;
      && BYPASSED in t.books.metrics
      && MetricValueOf(t.books.metrics, BYPASSED, labels) == MetricValueOf(s.books.metrics, BYPASSED, labels)
  {
    if plan != [] {
      NamesDiffer();
      UseAllCountsNoBypass(s, plan[..|plan| - 1], now, labels);
      hide MetricValueOf, Change, TB.ConsumeStep, SW.ConsumeStep, CheckLabels, ScopeLabels;
      var s' := UseAll(s, plan[..|plan| - 1], now).0;
      var l := plan[|plan| - 1];
      RecordCountsNoBypass(s'.books, l, UseLimit(s', l, now).1.result.allowed, labels);
    }
  }

  lemma {:induction false} RecordCountsNoBypass(b: Books, l: Limit, ok: bool, labels: Labels)
    requires BYPASSED in b.metrics
    ensures
      var m := RecordCheck(b, l.scope, l.policy.algorithm, ok).metrics;
      BYPASSED in m && MetricValueOf(m, BYPASSED, labels) == MetricValueOf(b.metrics, BYPASSED, labels)
  {
    NamesDiffer();
    hide Change, CheckLabels, ScopeLabels;
  }

  lemma {:induction false} LimitsCountNoBypass(c: Config, s: State, q: Request, o: Option<Override>, skip: bool,
                                               now: int, labels: Labels)
    requires ValidCall(c, o) && !Bypasses(c, q, skip) && BYPASSED in s.books.metrics
    ensures MetricValueOf(CheckStep(c, s, q, o, skip, now).0.books.metrics, BYPASSED, labels) ==
            MetricValueOf(s.books.metrics, BYPASSED, labels)
    ensures !CheckStep(c, s, q, o, skip, now).1.bypassed
  {
    NamesDiffer();
    PlanIsValid(c, q, o);
    UseAllCountsNoBypass(Counted(s), Plan(c, q, o), now, labels);
    hide Plan, UseAll, Change, FindDenied, MostRestrictive;
  }

  /* ---------- The limits of a request ---------- */

  // The method and the path, as the endpoint policies see them.
  ghost predicate IsPath(q: Request, path: string) {
    if q.routePath.Some? && q.routePath.value != "" then path == q.routePath.value
    else
      var url :=
        match (q.originalUrl, q.url)
        case (Some(original), _) => original
        case (None, Some(plain)) => plain
        case (None, None) => "/";
      '?' !in path && (url == path || exists query :: url == path + "?" + query)
  }

  // A policy names the method or none, and the path or, with a star at the end, how paths start.
  ghost predicate Admits(e: EndpointPolicy, verb: Option<string>, path: string) {
    && (e.verb.Some? && e.verb.value != "" ==> verb == e.verb || (verb.None? && e.verb == Some("GET")))
    && (e.path == path || exists start :: e.path == start + "*" && start <= path)
  }

  ghost predicate IsFirstAdmitting(es: seq<EndpointPolicy>, i: int, verb: Option<string>, path: string) {
    0 <= i < |es| && Admits(es[i], verb, path) && forall j :: 0 <= j < i ==> !Admits(es[j], verb, path)
  }

  lemma {:induction false} PathExact(q: Request)
    ensures IsPath(q, RequestPath(q))
    ensures forall path :: IsPath(q, path) ==> path == RequestPath(q)
  {
    if !(q.routePath.Some? && q.routePath.value != "") {
      var url := if q.originalUrl.Some? then q.originalUrl.value else OrElse(q.url, "/");
      var query := QueryCutOff(url);
      forall path | IsPath(q, path)
        ensures path == WithoutQuery(url)
      {
        PathIsCutOff(url, path);
      }
      hide WithoutQuery;
    }
  }

  lemma {:induction false} PathIsCutOff(url: string, path: string)
    requires '?' !in path && (url == path || exists query :: url == path + "?" + query)
    ensures path == WithoutQuery(url)
  {
    if url == path {
      QueryFree(url, []);
      assert path + [] == path;
    } else {
      var query :| url == path + "?" + query;
      QueryFree(path, "?" + query);
      assert path + "?" + query == path + ("?" + query);
    }
  }

  lemma {:induction false} QueryCutOff(url: string) returns (query: string)
    ensures '?' !in WithoutQuery(url)
    ensures url == WithoutQuery(url) || url == WithoutQuery(url) + "?" + query
  {
    if url == [] {
      query := [];
    } else if url[0] == '?' {
      query := url[1..];
      assert url == [] + "?" + query;
    } else {
      query := QueryCutOff(url[1..]);
      var w := WithoutQuery(url[1..]);
      assert url == [url[0]] + url[1..];
      if url[1..] != w {
        assert [url[0]] + (w + "?" + query) == [url[0]] + w + "?" + query;
      }
    }
  }

  lemma {:induction false} QueryFree(path: string, rest: string)
    requires '?' !in path && (rest == [] || rest[0] == '?')
    ensures WithoutQuery(path + rest) == path
  {
    if path == [] {
      assert path + rest == rest;
    } else {
      assert (path + rest)[1..] == path[1..] + rest;
      QueryFree(path[1..], rest);
    }
  }

  lemma {:induction false} CoversExact(e: EndpointPolicy, verb: Option<string>, path: string)
    ensures Covers(e, OrElse(verb, "GET"), path) <==> Admits(e, verb, path)
  {
    var n := |e.path|;
    if e.path != "" && e.path[n - 1] == '*' {
      assert e.path == e.path[..n - 1] + "*";
    }
    if start :| e.path == start + "*" && start <= path {
      assert n == |start| + 1 && e.path[n - 1] == '*' && start == e.path[..n - 1];
    }
  }

  lemma {:induction false} FindExact(es: seq<EndpointPolicy>, verb: Option<string>, path: string)
    ensures
      var e := FindEndpoint(es, OrElse(verb, "GET"), path);
      && (e.None? ==> forall i :: 0 <= i < |es| ==> !Admits(es[i], verb, path))
      && (e.Some? ==> exists i :: IsFirstAdmitting(es, i, verb, path) && es[i] == e.value)
  {
    hide Covers, Admits;
    if es != [] {
      CoversExact(es[0], verb, path);
      if Admits(es[0], verb, path) {
        assert IsFirstAdmitting(es, 0, verb, path);
      } else {
        var rest := es[1..];
        FindExact(rest, verb, path);
        assert forall i :: 0 < i < |es| ==> es[i] == rest[i - 1];
        if FindEndpoint(rest, OrElse(verb, "GET"), path).Some? {
          var found := FindEndpoint(rest, OrElse(verb, "GET"), path).value;
          var i :| IsFirstAdmitting(rest, i, verb, path) && rest[i] == found;
          assert forall j :: 0 <= j < i + 1 ==> !Admits(es[j], verb, path);
          assert IsFirstAdmitting(es, i + 1, verb, path);
        }
      }
    }
  }

  // The endpoint policy of a request: the override, or the first configured policy that admits it.
  ghost predicate IsEndpointPolicy(c: Config, q: Request, o: Option<Override>, path: string, byIp: bool, p: Policy) {
    match o
    case Some(v) =>
      byIp == v.byIp && p.limit == v.limit && p.windowMs == v.windowMs &&
      (if v.algorithm.Some? then p.algorithm == v.algorithm.value else p.algorithm == Algorithm.TokenBucket)
    case None =>
      exists i :: IsFirstAdmitting(c.endpoints, i, q.verb, path) && c.endpoints[i].byIp == byIp &&
        c.endpoints[i].policy == p
  }

  // For whom an endpoint limit counts.
  function CallerOf(q: Request, byIp: bool): string {
    match q.userId
    case Some(id) => if byIp || id == "" then "ip:" + AddressOf(q) else "user:" + id
    case None => "ip:" + AddressOf(q)
  }

  /**
   A request meets the limit of its address, the limit of its user if it has one, and the limit of one
   endpoint policy if it has one: the override, or else the first configured policy that names its method or
   none and its path or a start of it.
   */
  lemma {:induction false} LimitsExact(c: Config, q: Request, o: Option<Override>, l: Limit)
    ensures l in Plan(c, q, o) <==>
      match l.scope
      case Ip => l.key == "ip:ip:" + AddressOf(q) && l.policy == c.ip
      case User =>
        exists id :: q.userId == Some(id) && id != "" && l.key == "user:user:" + id && l.policy == c.user
      case Endpoint =>
        exists path, byIp :: IsPath(q, path) && IsEndpointPolicy(c, q, o, path, byIp, l.policy) &&
          l.key == "endpoint:endpoint:" + path + ":" + CallerOf(q, byIp)
  {
    var plan, path := Plan(c, q, o), RequestPath(q);
    PathExact(q);
    FindExact(c.endpoints, q.verb, path);
    assert IpKey(ClientIp(q)) == "ip:ip:" + AddressOf(q);
    assert q.userId.Some? ==> UserKey(q.userId.value) == "user:user:" + q.userId.value;
    hide RequestPath, FindEndpoint, IsPath, IsFirstAdmitting, IpKey, UserKey;
    match l.scope
    case Ip =>
    case User =>
    case Endpoint => EndpointLimitExact(c, q, o, l);
  }

  /** The limits are asked in this order, one of each scope at most: address, user, endpoint. */
  lemma {:induction false} LimitsInOrder(c: Config, q: Request, o: Option<Override>)
    ensures
      var plan := Plan(c, q, o);
      forall i, j :: 0 <= i < j < |plan| ==>
        || (plan[i].scope == Ip && plan[j].scope == User)
        || (plan[i].scope == Ip && plan[j].scope == Endpoint)
        || (plan[i].scope == User && plan[j].scope == Endpoint)
  {
    hide IpKey, UserKey, EndpointKey, EndpointPolicyOf;
  }

  lemma {:induction false} EndpointLimitExact(c: Config, q: Request, o: Option<Override>, l: Limit)
    requires l.scope.Endpoint?
    ensures l in Plan(c, q, o) <==>
      exists path, byIp :: IsPath(q, path) && IsEndpointPolicy(c, q, o, path, byIp, l.policy) &&
        l.key == "endpoint:endpoint:" + path + ":" + CallerOf(q, byIp)
  {
    var path := RequestPath(q);
    var e := EndpointPolicyOf(c, q, o);
    PathExact(q);
    EndpointPolicyExact(c, q, o);
    KeyText(q, true);
    KeyText(q, false);
    hide RequestPath, EndpointPolicyOf, IsPath, IsEndpointPolicy, EndpointKey, CallerOf;
    if l in Plan(c, q, o) {
      assert IsPath(q, path) && IsEndpointPolicy(c, q, o, path, e.value.byIp, l.policy);
    }
  }

  lemma {:induction false} KeyText(q: Request, byIp: bool)
    ensures EndpointKey(q, byIp) == "endpoint:endpoint:" + RequestPath(q) + ":" + CallerOf(q, byIp)
  {
    var path := RequestPath(q);
    hide RequestPath;
    assert "endpoint:" + ("endpoint:" + path + ":" + CallerOf(q, byIp)) ==
      "endpoint:endpoint:" + path + ":" + CallerOf(q, byIp);
  }

  lemma {:induction false} EndpointPolicyExact(c: Config, q: Request, o: Option<Override>)
    ensures
      var e, path := EndpointPolicyOf(c, q, o), RequestPath(q);
      forall byIp, p :: IsEndpointPolicy(c, q, o, path, byIp, p) <==>
        e.Some? && e.value.byIp == byIp && e.value.policy == p
  {
    var path := RequestPath(q);
    hide RequestPath;
    FindExact(c.endpoints, q.verb, path);
    FirstIsOne(c.endpoints, q.verb, path);
    hide FindEndpoint, IsFirstAdmitting, Admits;
  }

  lemma FirstIsOne(es: seq<EndpointPolicy>, verb: Option<string>, path: string)
    ensures forall i, j :: IsFirstAdmitting(es, i, verb, path) && IsFirstAdmitting(es, j, verb, path) ==> i == j
    ensures forall i :: IsFirstAdmitting(es, i, verb, path) ==> 0 <= i < |es| && Admits(es[i], verb, path)
  {
    hide Admits;
  }
}
