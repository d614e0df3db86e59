/** What a drift calculation answers and leaves behind (src/rebalancing/drift-calculator.service.ts). */
module DriftAnswers {
  import opened Common
  import opened Drift

  // `y` is the multiple of 0.0001 nearest to `x`, of two the one away from zero.
  predicate IsFixed4(y: real, x: real) {
    && (y * 10000.0).Floor as real == y * 10000.0
    && (x >= 0.0 ==> y * 10000.0 - 0.5 <= x * 10000.0 < y * 10000.0 + 0.5)
    && (x < 0.0 ==> y * 10000.0 - 0.5 < x * 10000.0 <= y * 10000.0 + 0.5)
  }

  lemma FixedExact(x: real)
    ensures IsFixed4(ToFixed4(x), x)
  {
    if x < 0.0 {
      var n := (0.5 - x * 10000.0).Floor;
      assert ToFixed4(x) * 10000.0 == (-n) as real;
      assert ((-n) as real).Floor == -n;
    } else {
      var n := (x * 10000.0 + 0.5).Floor;
      assert ToFixed4(x) * 10000.0 == n as real;
      assert (n as real).Floor == n;
    }
  }

  function Values(assets: seq<Asset>): seq<real> {
    seq(|assets|, i requires 0 <= i < |assets| => assets[i].currentValue)
  }

  function Shown(ds: seq<AssetDrift>): seq<real> {
    seq(|ds|, i requires 0 <= i < |ds| => ds[i].absoluteDrift)
  }

  // Without a configuration the thresholds are 5 and 10 per cent.
  function CriticalAt(config: Option<Config>): real {
    match config
    case Some(c) => c.critical
    case None => 0.1
  }

  function WarningAt(config: Option<Config>): real {
    match config
    case Some(c) => c.warning
    case None => 0.05
  }

  predicate Reaches(x: real, config: Option<Config>, status: AssetStatus) {
    match status
    case Critical => x >= CriticalAt(config)
    case Warning => WarningAt(config) <= x < CriticalAt(config)
    case OnTarget => x < WarningAt(config) && x < CriticalAt(config)
  }

  predicate IsDistance(x: real, a: Asset) {
    x >= 0.0 && (x == a.currentWeight - a.targetWeight || x == a.targetWeight - a.currentWeight)
  }

  // What is told of one asset whose weight is `x` off its target.
  predicate ToldOf(d: AssetDrift, a: Asset, x: real, total: real, config: Option<Config>) {
    && d.symbol == a.symbol && IsFixed4(d.absoluteDrift, x)
    && (a.targetWeight > 0.0 ==> IsFixed4(d.relativeDrift, x / a.targetWeight))
    && (a.targetWeight <= 0.0 ==> d.relativeDrift == 0.0)
    && IsFixed4(d.driftValue, x * total) && Reaches(x, config, d.status)
  }

  lemma {:induction false} TotalIsSum(assets: seq<Asset>)
    ensures TotalValue(assets) == SumOf(Values(assets))
  {
    if assets != [] {
      var n := |assets| - 1;
      TotalIsSum(assets[..n]);
      assert Values(assets)[..n] == Values(assets[..n]);
    }
  }

  lemma {:induction false} ShownIsSum(ds: seq<AssetDrift>)
    ensures Sum(ds) == SumOf(Shown(ds))
  {
    if ds != [] {
      var n := |ds| - 1;
      ShownIsSum(ds[..n]);
      assert Shown(ds)[..n] == Shown(ds[..n]);
    }
  }

  lemma {:induction false} AssetTold(a: Asset, total: real, c: Config, config: Option<Config>, x: real)
    requires IsDistance(x, a) && c == Config(WarningAt(config), CriticalAt(config))
    ensures ToldOf(DriftOf(a, total, c), a, x, total, config)
  {
    assert x == RawDrift(a);
    DriftTold(a, total, c, config);
  }

  lemma {:induction false} DriftTold(a: Asset, total: real, c: Config, config: Option<Config>)
    requires c == Config(WarningAt(config), CriticalAt(config))
    ensures ToldOf(DriftOf(a, total, c), a, RawDrift(a), total, config)
  {
    hide ToFixed4, RawDrift;
    FixedExact(RawDrift(a));
    ValueTold(a, total, c);
    if a.targetWeight > 0.0 {
      RatioTold(a, total, c);
    }
  }

  lemma ValueTold(a: Asset, total: real, c: Config)
    ensures IsFixed4(DriftOf(a, total, c).driftValue, RawDrift(a) * total)
  {
    hide ToFixed4, RawDrift;
    FixedExact(InValue(RawDrift(a), total));
    assert InValue(RawDrift(a), total) == RawDrift(a) * total;
  }

  lemma RatioTold(a: Asset, total: real, c: Config)
    requires a.targetWeight > 0.0
    ensures IsFixed4(DriftOf(a, total, c).relativeDrift, RawDrift(a) / a.targetWeight)
  {
    FixedExact(RawDrift(a) / a.targetWeight);
    hide IsFixed4, ToFixed4, RawDrift;
  }

  /**
   The snapshot of a portfolio: each asset with its distance from the target, in parts of the target and in
   value, judged before rounding; the rounded mean and the largest of the distances shown, by which the
   portfolio is judged.
   */
  lemma {:induction false} SnapshotExact(p: string, assets: seq<Asset>, config: Option<Config>, now: int)
    ensures
      var s := SnapshotOf(p, assets, config, now);
      && s.portfolioId == p && s.timestamp == now && s.thresholds == config && |s.assets| == |assets|
      && (forall i, x :: 0 <= i < |assets| && IsDistance(x, assets[i]) ==>
            ToldOf(s.assets[i], assets[i], x, SumOf(Values(assets)), config))
      && (assets == [] ==> s.overallDrift == 0.0 && s.maxDrift == 0.0)
      && (assets != [] ==> IsFixed4(s.overallDrift, SumOf(Shown(s.assets)) / |assets| as real))
      && (forall i :: 0 <= i < |assets| ==> s.assets[i].absoluteDrift <= s.maxDrift)
      && (assets != [] ==> exists i :: 0 <= i < |assets| && s.assets[i].absoluteDrift == s.maxDrift)
      && Reaches(s.maxDrift, config, s.status)
  {
    hide IsFixed4, ToFixed4, AllRounded, Sum, TotalValue, DriftOf, ToldOf, IsDistance;
    var s := SnapshotOf(p, assets, config, now);
    var c := Config(WarningAt(config), CriticalAt(config));
    TotalIsSum(assets);
    ShownIsSum(s.assets);
    DriftsAreRounded(assets, TotalValue(assets), c);
    MaxExact(s.assets);
    AllTold(assets, c, config);
    if assets != [] {
      hide MaxOf;
      FixedExact(Sum(s.assets) / |assets| as real);
    }
  }

  lemma {:induction false} AllTold(assets: seq<Asset>, c: Config, config: Option<Config>)
    requires c == Config(WarningAt(config), CriticalAt(config))
    ensures forall i, x :: 0 <= i < |assets| && IsDistance(x, assets[i]) ==>
      ToldOf(DriftsOf(assets, TotalValue(assets), c)[i], assets[i], x, TotalValue(assets), config)
  {
    hide IsFixed4, ToFixed4, TotalValue, DriftOf, ToldOf, IsDistance;
    forall i, x | 0 <= i < |assets| && IsDistance(x, assets[i])
      ensures ToldOf(DriftsOf(assets, TotalValue(assets), c)[i], assets[i], x, TotalValue(assets), config)
    {
      AssetTold(assets[i], TotalValue(assets), c, config, x);
    }
  }

  // The assets in breach, by their positions.
  function InBreach(ds: seq<AssetDrift>): set<nat> {
    set i: nat | 0 <= i < |ds| && ds[i].status != OnTarget
  }

  lemma {:induction false} BreachesAreCounted(ds: seq<AssetDrift>)
    ensures Breaches(ds) == |InBreach(ds)|
  {
    if ds != [] {
      var n := |ds| - 1;
      BreachesAreCounted(ds[..n]);
      BreachesLast(ds);
      assert InBreach(ds) == InBreach(ds[..n]) + if ds[n].status != OnTarget then {n} else {};
    }
  }

  lemma {:induction false} BreachesLast(ds: seq<AssetDrift>)
    requires ds != []
    ensures Breaches(ds) == Breaches(ds[..|ds| - 1]) + if ds[|ds| - 1].status != OnTarget then 1 else 0
  {
    var n := |ds| - 1;
    if n > 0 {
      BreachesLast(ds[1..]);
      assert ds[1..][..n - 1] == ds[..n][1..];
    }
  }

  /** The history gets one entry at its end that repeats the snapshot and counts the assets in breach. */
  lemma {:induction false} HistoryExact(s: State, p: string, assets: seq<Asset>, ids: seq<string>, now: int)
    requires |ids| == |assets|
    ensures
      var snapshot := SnapshotOf(p, assets, ConfigOf(s, p), now);
      var before, after := HistoryOf(s, p), HistoryOf(CalculateStep(s, p, assets, ids, now), p);
      var entry := HistoryEntry(now, snapshot.overallDrift, snapshot.maxDrift, snapshot.status, |assets|,
                                |InBreach(snapshot.assets)|);
      var all := before + [entry];
      && |after| == Min(|all|, 1000) && after == all[|all| - |after|..]
      && forall q :: q != p ==> HistoryOf(CalculateStep(s, p, assets, ids, now), q) == HistoryOf(s, q)
  {
    BreachesAreCounted(SnapshotOf(p, assets, ConfigOf(s, p), now).assets);
    hide AlertAll, DriftsOf, MaxOf, OverallDrift, TotalValue, ToFixed4, InBreach, Breaches;
  }

  // An alert that tells of this asset, made now.
  predicate TellsOf(a: Alert, p: string, d: AssetDrift, config: Option<Config>, now: int) {
    && a.portfolioId == p && a.affectedAsset == d.symbol && a.currentDrift == d.absoluteDrift
    && a.triggeredAt == now && !a.acknowledged
    && match d.status
       case Critical => a.severity == Critical && a.threshold == CriticalAt(config)
       case Warning => a.severity == Warning && a.threshold == WarningAt(config)
       case OnTarget => false
  }

  predicate Concerns(a: Alert, p: string, d: AssetDrift) {
    a.portfolioId == p && a.affectedAsset == d.symbol && a.severity == d.status
  }

  predicate AllClosed(alerts: map<string, Alert>, p: string, d: AssetDrift) {
    forall k :: k in alerts && Concerns(alerts[k], p, d) ==> alerts[k].acknowledged
  }

  /**
   A calculation leaves the alerts there are as they are. Each new one tells of an asset in breach for
   which no alert of that severity was open.
   */
  lemma {:induction false} AlertsExact(s: State, p: string, assets: seq<Asset>, ids: seq<string>, now: int, id: string)
    requires |ids| == |assets| && FreshIds(s.alerts, ids)
    ensures
      var ds := SnapshotOf(p, assets, ConfigOf(s, p), now).assets;
      var after := CalculateStep(s, p, assets, ids, now).alerts;
      && (id in s.alerts ==> id in after && after[id] == s.alerts[id])
      && (id in after && id !in s.alerts ==>
            exists i :: 0 <= i < |ds| && ids[i] == id && TellsOf(after[id], p, ds[i], ConfigOf(s, p), now) &&
              AllClosed(s.alerts, p, ds[i]))
  {
    var ds := SnapshotOf(p, assets, ConfigOf(s, p), now).assets;
    AlertAllCovers(s.alerts, ids, p, ds, Thresholds(s, p), now);
    AlertsTell(s.alerts, ids, p, ds, ConfigOf(s, p), Thresholds(s, p), now, id);
    hide DriftsOf, MaxOf, OverallDrift, TotalValue, ToFixed4, AlertAll;
  }

  lemma {:induction false} AlertsTell(alerts: map<string, Alert>, ids: seq<string>, p: string, ds: seq<AssetDrift>,
                                      config: Option<Config>, c: Config, now: int, id: string)
    requires |ids| == |ds| && FreshIds(alerts, ids) && c == Config(WarningAt(config), CriticalAt(config))
    ensures
      var after := AlertAll(alerts, ids, p, ds, c, now);
      id in after && id !in alerts ==>
        exists i :: 0 <= i < |ds| && ids[i] == id && TellsOf(after[id], p, ds[i], config, now) &&
          AllClosed(alerts, p, ds[i])
  {
    if ds != [] {
      var n := |ds| - 1;
      AlertsTell(alerts, ids[..n], p, ds[..n], config, c, now, id);
      AlertAllCovers(alerts, ids[..n], p, ds[..n], c, now);
      var before := AlertAll(alerts, ids[..n], p, ds[..n], c, now);
      assert forall i :: 0 <= i < n ==> ids[..n][i] == ids[i] && ds[..n][i] == ds[i];
      assert ids[n] !in before;
      AlertMade(before, ids[n], p, ds[n], config, c, now);
      hide AlertOne, TellsOf, HasOpen;
      if id == ids[n] && id in AlertAll(alerts, ids, p, ds, c, now) {
        assert AllClosed(alerts, p, ds[n]);
      }
    }
  }

  // An alert is made only for an asset in breach for which none is open.
  lemma AlertMade(alerts: map<string, Alert>, id: string, p: string, d: AssetDrift, config: Option<Config>, c: Config,
                  now: int)
    requires c == Config(WarningAt(config), CriticalAt(config)) && id !in alerts
    ensures
      var after := AlertOne(alerts, id, p, d, c, now);
      && (forall k :: k != id ==> (k in after <==> k in alerts) && (k in alerts ==> after[k] == alerts[k]))
      && (id in after ==> TellsOf(after[id], p, d, config, now) && AllClosed(alerts, p, d))
  {
    if AlertOne(alerts, id, p, d, c, now) != alerts {
      forall k | k in alerts
        ensures !Open(alerts[k], p, d.symbol, d.status)
      {
      }
    }
  }
}
