/** Drift status and drift alerts of a portfolio (src/rebalancing/drift-calculator.service.ts). */
module Drift {
  import opened Common

  datatype Asset = Asset(symbol: string, currentWeight: real, targetWeight: real, currentValue: real)

  datatype AssetStatus = OnTarget | Warning | Critical

  datatype AssetDrift = AssetDrift(
    symbol: string, absoluteDrift: real, relativeDrift: real, driftValue: real, status: AssetStatus)

  datatype Config = Config(warning: real, critical: real)

  datatype Snapshot = Snapshot(
    portfolioId: string, timestamp: int, overallDrift: real, maxDrift: real, status: AssetStatus,
    assets: seq<AssetDrift>, thresholds: Option<Config>)

  datatype HistoryEntry = HistoryEntry(
    timestamp: int, overallDrift: real, maxDrift: real, status: AssetStatus, assetCount: nat, assetsInBreach: nat)

  datatype Alert = Alert(
    portfolioId: string, severity: AssetStatus, affectedAsset: string, currentDrift: real, threshold: real,
    triggeredAt: int, acknowledged: bool)

  const DEFAULT_WARNING := 0.05
  const DEFAULT_CRITICAL := 0.1
  const HISTORY_LIMIT := 1000

  /* ---------- Rounding ---------- */

  // `Number(x.toFixed(4))`: the nearest multiple of 0.0001, of two the one away from zero.
  function ToFixed4(x: real): real {
    if x < 0.0 then -((0.5 - x * 10000.0).Floor as real / 10000.0)
    else (x * 10000.0 + 0.5).Floor as real / 10000.0
  }

  function Abs(x: real): (r: real)
    ensures r >= 0.0
  {
    if x < 0.0 then -x else x
  }

  /* ---------- Drift ---------- */

  function Judge(drift: real, c: Config): AssetStatus {
    if drift >= c.critical then Critical else if drift >= c.warning then Warning else OnTarget
  }

  function RawDrift(a: Asset): real {
    Abs(a.currentWeight - a.targetWeight)
  }

  function InValue(drift: real, totalValue: real): real {
    drift * totalValue
  }

  // An asset is judged by its drift before rounding.
  function DriftOf(a: Asset, totalValue: real, c: Config): AssetDrift {
    var drift := RawDrift(a);
    AssetDrift(
      a.symbol,
      ToFixed4(drift),
      if a.targetWeight > 0.0 then ToFixed4(drift / a.targetWeight) else 0.0,
      ToFixed4(InValue(drift, totalValue)),
      Judge(drift, c))
  }

  function TotalValue(assets: seq<Asset>): real {
    if assets == [] then 0.0 else TotalValue(assets[..|assets| - 1]) + assets[|assets| - 1].currentValue
  }

  function DriftsOf(assets: seq<Asset>, totalValue: real, c: Config): (ds: seq<AssetDrift>)
    ensures |ds| == |assets|
    ensures forall i :: 0 <= i < |assets| ==> ds[i] == DriftOf(assets[i], totalValue, c)
  {
    seq(|assets|, i requires 0 <= i < |assets| => DriftOf(assets[i], totalValue, c))
  }

  function Sum(ds: seq<AssetDrift>): real {
    if ds == [] then 0.0 else Sum(ds[..|ds| - 1]) + ds[|ds| - 1].absoluteDrift
  }

  function MaxOf(ds: seq<AssetDrift>): real {
    if ds == [] then 0.0
    else if |ds| == 1 then ds[0].absoluteDrift
    else
      var m := MaxOf(ds[..|ds| - 1]);
      if ds[|ds| - 1].absoluteDrift > m then ds[|ds| - 1].absoluteDrift else m
  }

  function OverallDrift(ds: seq<AssetDrift>): real {
    if ds == [] then 0.0 else ToFixed4(Sum(ds) / |ds| as real)
  }

  // The portfolio is judged by the largest drift after rounding.
  function SnapshotOf(portfolioId: string, assets: seq<Asset>, config: Option<Config>, now: int): Snapshot {
    var c := if config.Some? then config.value else Config(DEFAULT_WARNING, DEFAULT_CRITICAL);
    var ds := DriftsOf(assets, TotalValue(assets), c);
    Snapshot(
      portfolioId, now, OverallDrift(ds), ToFixed4(MaxOf(ds)), Judge(MaxOf(ds), c), ds, config)
  }

  function Breaches(ds: seq<AssetDrift>): nat {
    if ds == [] then 0 else Breaches(ds[1..]) + if ds[0].status.OnTarget? then 0 else 1
  }

  function EntryOf(s: Snapshot): HistoryEntry {
    HistoryEntry(s.timestamp, s.overallDrift, s.maxDrift, s.status, |s.assets|, Breaches(s.assets))
  }

  /* ---------- Alerts and history ---------- */

  predicate Open(a: Alert, portfolioId: string, symbol: string, severity: AssetStatus) {
    a.portfolioId == portfolioId && a.affectedAsset == symbol && a.severity == severity && !a.acknowledged
  }

  predicate HasOpen(alerts: map<string, Alert>, portfolioId: string, symbol: string, severity: AssetStatus) {
    exists k :: k in alerts && Open(alerts[k], portfolioId, symbol, severity)
  }

  function AlertFor(portfolioId: string, d: AssetDrift, c: Config, now: int): Alert {
    var threshold := if d.status.Critical? then c.critical else c.warning;
    Alert(portfolioId, d.status, d.symbol, d.absoluteDrift, threshold, now, false)
  }

  function AlertOne(alerts: map<string, Alert>, id: string, portfolioId: string, d: AssetDrift, c: Config, now: int):
    map<string, Alert>
  {
    if d.status.OnTarget? || HasOpen(alerts, portfolioId, d.symbol, d.status) then alerts
    else alerts[id := AlertFor(portfolioId, d, c, now)]
  }

  // The assets in turn; `ids` are the identifiers that new alerts would get.
  function AlertAll(alerts: map<string, Alert>, ids: seq<string>, portfolioId: string, ds: seq<AssetDrift>,
                    c: Config, now: int): map<string, Alert>
    requires |ids| == |ds|
  {
    if ds == [] then alerts
    else
      var n := |ds| - 1;
      AlertOne(AlertAll(alerts, ids[..n], portfolioId, ds[..n], c, now), ids[n], portfolioId, ds[n], c, now)
  }

  function LastEntries(entries: seq<HistoryEntry>, n: nat): seq<HistoryEntry> {
    if |entries| <= n then entries else entries[|entries| - n..]
  }

  datatype State = State(
    configs: map<string, Config>,
    history: map<string, seq<HistoryEntry>>,
    alerts: map<string, Alert>)

  function ConfigOf(s: State, portfolioId: string): Option<Config> {
    if portfolioId in s.configs then Some(s.configs[portfolioId]) else None
  }

  function HistoryOf(s: State, portfolioId: string): seq<HistoryEntry> {
    if portfolioId in s.history then s.history[portfolioId] else []
  }

  function Thresholds(s: State, portfolioId: string): Config {
    if portfolioId in s.configs then s.configs[portfolioId] else Config(DEFAULT_WARNING, DEFAULT_CRITICAL)
  }

  function CalculateStep(s: State, portfolioId: string, assets: seq<Asset>, ids: seq<string>, now: int): State
    requires |ids| == |assets|
  {
    var snapshot := SnapshotOf(portfolioId, assets, ConfigOf(s, portfolioId), now);
    var entries := LastEntries(HistoryOf(s, portfolioId) + [EntryOf(snapshot)], HISTORY_LIMIT);
    s.(history := s.history[portfolioId := entries],
       alerts := AlertAll(s.alerts, ids, portfolioId, snapshot.assets, Thresholds(s, portfolioId), now))
  }

  function AcknowledgeStep(s: State, id: string): State {
    if id in s.alerts then s.(alerts := s.alerts[id := s.alerts[id].(acknowledged := true)]) else s
  }

  class DriftCalculatorService {
    var configs: map<string, Config>
    var history: map<string, seq<HistoryEntry>>
    var alerts: map<string, Alert>

    constructor ()
      ensures Contents() == State(map[], map[], map[])
    {
      configs, history, alerts := map[], map[], map[];
    }

    function Contents(): State
      reads this
    {
      State(configs, history, alerts)
    }

    method CreateConfig(portfolioId: string, c: Config)
      modifies this
      ensures Contents() == old(Contents()).(configs := old(configs)[portfolioId := c])
    {
      configs := configs[portfolioId := c];
    }

    method CalculateDrift(portfolioId: string, assets: seq<Asset>, ids: seq<string>, now: int)
      returns (snapshot: Snapshot)
      requires |ids| == |assets|
      modifies this
      ensures snapshot == SnapshotOf(portfolioId, assets, ConfigOf(old(Contents()), portfolioId), now)
      ensures Contents() == CalculateStep(old(Contents()), portfolioId, assets, ids, now)
    {
      var config := if portfolioId in configs then Some(configs[portfolioId]) else None;
      var c := if config.Some? then config.value else Config(DEFAULT_WARNING, DEFAULT_CRITICAL);
      var drifts := DriftsOf(assets, TotalValue(assets), c);
      var maxDrift := MaxOf(drifts);
      var status := OnTarget;
      if maxDrift >= c.critical {
        status := Critical;
      } else if maxDrift >= c.warning {
        status := Warning;
      }
      snapshot := Snapshot(portfolioId, now, OverallDrift(drifts), ToFixed4(maxDrift), status, drifts, config);
      PersistSnapshot(portfolioId, snapshot);
      GenerateAlerts(portfolioId, snapshot, c, ids);
    }

    method PersistSnapshot(portfolioId: string, snapshot: Snapshot)
      modifies this`history
      ensures
        history == old(history)[portfolioId :=
          LastEntries(HistoryOf(old(Contents()), portfolioId) + [EntryOf(snapshot)], HISTORY_LIMIT)]
    {
      var existing := if portfolioId in history then history[portfolioId] else [];
      history := history[portfolioId := LastEntries(existing + [EntryOf(snapshot)], HISTORY_LIMIT)];
    }

    method GenerateAlerts(portfolioId: string, snapshot: Snapshot, c: Config, ids: seq<string>)
      requires |ids| == |snapshot.assets|
      modifies this`alerts
      ensures alerts == AlertAll(old(alerts), ids, portfolioId, snapshot.assets, c, snapshot.timestamp)
    {
      var ds := snapshot.assets;
      for i := 0 to |ds|
        invariant alerts == AlertAll(old(alerts), ids[..i], portfolioId, ds[..i], c, snapshot.timestamp)
      {
        assert ds[..i + 1][..i] == ds[..i] && ids[..i + 1][..i] == ids[..i];
        var d := ds[i];
        if d.status == OnTarget {
          continue;
        }
        var threshold := if d.status == Critical then c.critical else c.warning;
        if HasOpen(alerts, portfolioId, d.symbol, d.status) {
          continue;
        }
        var alert := Alert(portfolioId, d.status, d.symbol, d.absoluteDrift, threshold, snapshot.timestamp, false);
        alerts := alerts[ids[i] := alert];
      }
      assert ds[..|ds|] == ds && ids[..|ids|] == ids;
    }

    method AcknowledgeAlert(id: string) returns (found: bool)
      modifies this
      ensures found == (id in old(alerts)) && Contents() == AcknowledgeStep(old(Contents()), id)
    {
      if id !in alerts {
        return false;
      }
      alerts := alerts[id := alerts[id].(acknowledged := true)];
      return true;
    }
  }

  /* ---------- Alerts over runs ---------- */

  // At most one open alert for each portfolio, asset and severity.
  ghost predicate OneOpen(alerts: map<string, Alert>) {
    forall j, k :: j in alerts && k in alerts && SameConcern(alerts[j], alerts[k]) ==> j == k
  }

  predicate SameConcern(a: Alert, b: Alert) {
    && !a.acknowledged && !b.acknowledged
    && a.portfolioId == b.portfolioId && a.affectedAsset == b.affectedAsset && a.severity == b.severity
  }

  lemma {:induction false} AlertAllKeeps(alerts: map<string, Alert>, ids: seq<string>, portfolioId: string,
                                         ds: seq<AssetDrift>, c: Config, now: int)
    requires |ids| == |ds| && OneOpen(alerts)
    ensures OneOpen(AlertAll(alerts, ids, portfolioId, ds, c, now))
  {
    if ds != [] {
      var n := |ds| - 1;
      AlertAllKeeps(alerts, ids[..n], portfolioId, ds[..n], c, now);
      var before := AlertAll(alerts, ids[..n], portfolioId, ds[..n], c, now);
      var after := AlertOne(before, ids[n], portfolioId, ds[n], c, now);
      if !HasOpen(before, portfolioId, ds[n].symbol, ds[n].status) {
        assert forall k :: k in before ==> !Open(before[k], portfolioId, ds[n].symbol, ds[n].status);
      }
      assert OneOpen(after);
    }
  }

  datatype Op =
    | Configure(portfolioId: string, config: Config)
    | Calculate(portfolioId: string, assets: seq<Asset>, ids: seq<string>, now: int)
    | Acknowledge(id: string)

  predicate ValidOp(op: Op) {
    op.Calculate? ==> |op.ids| == |op.assets|
  }

  function Step(s: State, op: Op): State
    requires ValidOp(op)
  {
    match op
    case Configure(p, c) => s.(configs := s.configs[p := c])
    case Calculate(p, assets, ids, now) => CalculateStep(s, p, assets, ids, now)
    case Acknowledge(id) => AcknowledgeStep(s, id)
  }

  predicate ValidRun(ops: seq<Op>) {
    forall i :: 0 <= i < |ops| ==> ValidOp(ops[i])
  }

  function Run(ops: seq<Op>): State
    requires ValidRun(ops)
  {
    if ops == [] then State(map[], map[], map[]) else Step(Run(ops[..|ops| - 1]), ops[|ops| - 1])
  }

  /** In every run there is at most one unacknowledged alert per portfolio, asset and severity. */
  lemma {:induction false} AlertsAreUnique(ops: seq<Op>)
    requires ValidRun(ops)
    ensures OneOpen(Run(ops).alerts)
  {
    if ops != [] {
      var n := |ops| - 1;
      AlertsAreUnique(ops[..n]);
      var s := Run(ops[..n]);
      match ops[n]
      case Calculate(p, assets, ids, now) =>
        var ds := SnapshotOf(p, assets, ConfigOf(s, p), now).assets;
        AlertAllKeeps(s.alerts, ids, p, ds, Thresholds(s, p), now);
      case _ =>
    }
  }

  predicate FreshIds(alerts: map<string, Alert>, ids: seq<string>) {
    && (forall i :: 0 <= i < |ids| ==> ids[i] !in alerts)
    && (forall i, j :: 0 <= i < j < |ids| ==> ids[i] != ids[j])
  }

  lemma {:induction false} AlertAllCovers(alerts: map<string, Alert>, ids: seq<string>, portfolioId: string,
                                          ds: seq<AssetDrift>, c: Config, now: int)
    requires |ids| == |ds| && FreshIds(alerts, ids)
    ensures
      var after := AlertAll(alerts, ids, portfolioId, ds, c, now);
      && (forall k :: k in after ==> k in alerts || k in ids)
      && (forall k :: k in alerts ==> k in after && after[k] == alerts[k])
      && forall i :: 0 <= i < |ds| && !ds[i].status.OnTarget? ==>
           HasOpen(after, portfolioId, ds[i].symbol, ds[i].status)
  {
    if ds != [] {
      var n := |ds| - 1;
      AlertAllCovers(alerts, ids[..n], portfolioId, ds[..n], c, now);
      var before := AlertAll(alerts, ids[..n], portfolioId, ds[..n], c, now);
      var after := AlertAll(alerts, ids, portfolioId, ds, c, now);
      assert ids[n] !in before;
      assert ids == ids[..n] + [ids[n]];
      forall i | 0 <= i < |ds| && !ds[i].status.OnTarget?
        ensures HasOpen(after, portfolioId, ds[i].symbol, ds[i].status)
      {
        if i < n {
          assert ds[..n][i] == ds[i];
          var k :| k in before && Open(before[k], portfolioId, ds[i].symbol, ds[i].status);
          assert k in after && after[k] == before[k];
        } else if !HasOpen(before, portfolioId, ds[n].symbol, ds[n].status) {
          assert Open(after[ids[n]], portfolioId, ds[n].symbol, ds[n].status);
        }
      }
    }
  }

  /**
   After the drift of a portfolio was calculated, every asset in breach has exactly one open alert of its
   severity, if the identifiers of new alerts are fresh.
   */
  lemma BreachesAreAlerted(ops: seq<Op>, p: string, assets: seq<Asset>, ids: seq<string>, now: int, i: nat)
    requires ValidRun(ops) && |ids| == |assets| && FreshIds(Run(ops).alerts, ids) && i < |assets|
    ensures
      var d := SnapshotOf(p, assets, ConfigOf(Run(ops), p), now).assets[i];
      var after := CalculateStep(Run(ops), p, assets, ids, now).alerts;
      OneOpen(after) && (!d.status.OnTarget? ==> HasOpen(after, p, d.symbol, d.status))
  {
    var s := Run(ops);
    AlertsAreUnique(ops);
    var ds := SnapshotOf(p, assets, ConfigOf(s, p), now).assets;
    AlertAllKeeps(s.alerts, ids, p, ds, Thresholds(s, p), now);
    AlertAllCovers(s.alerts, ids, p, ds, Thresholds(s, p), now);
  }

  // All entries that were ever made for a portfolio.
  function AllEntries(ops: seq<Op>, p: string): seq<HistoryEntry>
    requires ValidRun(ops)
  {
    if ops == [] then []
    else
      var n := |ops| - 1;
      var before := AllEntries(ops[..n], p);
      match ops[n]
      case Calculate(q, assets, _, now) =>
        if q == p then before + [EntryOf(SnapshotOf(p, assets, ConfigOf(Run(ops[..n]), p), now))] else before
      case _ => before
  }

  /** The history of a portfolio is the last 1000 of all its snapshots, in their order. */
  lemma {:induction false} HistoryIsLast(ops: seq<Op>, p: string)
    requires ValidRun(ops)
    ensures HistoryOf(Run(ops), p) == LastEntries(AllEntries(ops, p), HISTORY_LIMIT)
  {
    hide SnapshotOf, EntryOf, AlertAll;
    if ops != [] {
      var n := |ops| - 1;
      HistoryIsLast(ops[..n], p);
      match ops[n]
      case Calculate(q, assets, _, now) =>
        if q == p {
          var all := AllEntries(ops[..n], p);
          var e := EntryOf(SnapshotOf(p, assets, ConfigOf(Run(ops[..n]), p), now));
          assert LastEntries(LastEntries(all, HISTORY_LIMIT) + [e], HISTORY_LIMIT)
              == LastEntries(all + [e], HISTORY_LIMIT);
        }
      case _ =>
    }
  }

  /* ---------- Rounding and status ---------- */

  lemma FloorMonotone(x: real, y: real)
    requires x <= y
    ensures x.Floor <= y.Floor
  {
  }

  lemma RoundingMonotone(x: real, y: real)
    requires 0.0 <= x <= y
    ensures 0.0 <= ToFixed4(x) <= ToFixed4(y)
  {
    FloorMonotone(0.5, x * 10000.0 + 0.5);
    FloorMonotone(x * 10000.0 + 0.5, y * 10000.0 + 0.5);
  }

  lemma RoundedTwice(x: real)
    requires x >= 0.0
    ensures ToFixed4(ToFixed4(x)) == ToFixed4(x) && ToFixed4(x) >= 0.0
  {
    var n := (x * 10000.0 + 0.5).Floor;
    FloorMonotone(0.5, x * 10000.0 + 0.5);
    assert (n as real / 10000.0) * 10000.0 + 0.5 == n as real + 0.5;
    assert (n as real + 0.5).Floor == n;
  }

  // Every drift listed is rounded.
  predicate AllRounded(ds: seq<AssetDrift>) {
    forall i :: 0 <= i < |ds| ==> ds[i].absoluteDrift >= 0.0 && ToFixed4(ds[i].absoluteDrift) == ds[i].absoluteDrift
  }

  lemma DriftsAreRounded(assets: seq<Asset>, totalValue: real, c: Config)
    ensures AllRounded(DriftsOf(assets, totalValue, c))
  {
    forall i | 0 <= i < |assets|
      ensures ToFixed4(ToFixed4(RawDrift(assets[i]))) == ToFixed4(RawDrift(assets[i])) &&
        ToFixed4(RawDrift(assets[i])) >= 0.0
    {
      RoundedTwice(RawDrift(assets[i]));
    }
  }

  lemma {:induction false} MaxExact(ds: seq<AssetDrift>)
    requires AllRounded(ds)
    ensures forall i :: 0 <= i < |ds| ==> ds[i].absoluteDrift <= MaxOf(ds)
    ensures ds != [] ==> exists i :: 0 <= i < |ds| && ds[i].absoluteDrift == MaxOf(ds)
    ensures ToFixed4(MaxOf(ds)) == MaxOf(ds) >= 0.0
  {
    if |ds| > 1 {
      var n := |ds| - 1;
      MaxExact(ds[..n]);
      var i :| 0 <= i < n && ds[..n][i].absoluteDrift == MaxOf(ds[..n]);
      assert ds[i].absoluteDrift == MaxOf(ds[..n]);
      hide ToFixed4;
      forall j | 0 <= j < |ds|
        ensures ds[j].absoluteDrift <= MaxOf(ds)
      {
        assert j < n ==> ds[..n][j] == ds[j];
      }
    }
  }

  lemma {:induction false} SumBelow(ds: seq<AssetDrift>, m: real)
    requires forall i :: 0 <= i < |ds| ==> 0.0 <= ds[i].absoluteDrift <= m
    ensures 0.0 <= Sum(ds) <= |ds| as real * m
  {
    if ds != [] {
      var n := |ds| - 1;
      SumBelow(ds[..n], m);
      OneMore(n, m);
    }
  }

  lemma OneMore(n: nat, m: real)
    ensures (n + 1) as real * m == n as real * m + m
  {
  }

  lemma MeanBelow(sum: real, n: nat, m: real)
    requires n > 0 && 0.0 <= sum <= n as real * m
    ensures 0.0 <= sum / n as real <= m
  {
  }

  lemma {:induction false} OverallExact(ds: seq<AssetDrift>)
    requires AllRounded(ds)
    ensures 0.0 <= OverallDrift(ds) <= MaxOf(ds)
  {
    MaxExact(ds);
    var m := MaxOf(ds);
    hide MaxOf;
    if ds != [] {
      SumBelow(ds, m);
      hide Sum, AllRounded;
      RoundedMean(Sum(ds), |ds|, m);
    }
  }

  lemma RoundedMean(sum: real, n: nat, m: real)
    requires n > 0 && 0.0 <= sum <= n as real * m && ToFixed4(m) == m
    ensures 0.0 <= ToFixed4(sum / n as real) <= m
  {
    MeanBelow(sum, n, m);
    RoundingMonotone(sum / n as real, m);
  }

  /** Rounding or not, the overall drift of a portfolio never exceeds its largest drift. */
  lemma OverallBelowMax(p: string, assets: seq<Asset>, config: Option<Config>, now: int)
    ensures
      var s := SnapshotOf(p, assets, config, now);
      0.0 <= s.overallDrift <= s.maxDrift
  {
    var c := if config.Some? then config.value else Config(DEFAULT_WARNING, DEFAULT_CRITICAL);
    var ds := DriftsOf(assets, TotalValue(assets), c);
    DriftsAreRounded(assets, TotalValue(assets), c);
    MaxExact(ds);
    OverallExact(ds);
    hide ToFixed4, OverallDrift, MaxOf;
  }

  // Whether every drift that reaches the threshold still reaches it after rounding.
  predicate Safe(t: real) {
    t <= 0.0 || ToFixed4(t) >= t
  }

  lemma SafeExact(t: real, x: real)
    requires Safe(t) && x >= t && x >= 0.0
    ensures ToFixed4(x) >= t
  {
    if t <= 0.0 {
      RoundingMonotone(0.0, x);
    } else {
      RoundingMonotone(t, x);
    }
  }

  /** Thresholds that are multiples of 0.0001 are safe. */
  lemma MultiplesAreSafe(n: nat)
    ensures Safe(n as real / 10000.0)
  {
    assert (n as real / 10000.0) * 10000.0 + 0.5 == n as real + 0.5;
    assert (n as real + 0.5).Floor == n;
  }

  function Severity(s: AssetStatus): nat {
    match s
    case OnTarget => 0
    case Warning => 1
    case Critical => 2
  }

  // The portfolio is judged at least as severely as each of its assets.
  ghost predicate Covers(assets: seq<Asset>, c: Config) {
    forall p, now, i :: 0 <= i < |assets| ==> CoversAt(SnapshotOf(p, assets, Some(c), now), i)
  }

  predicate CoversAt(s: Snapshot, i: nat) {
    i < |s.assets| ==> Severity(s.status) >= Severity(s.assets[i].status)
  }

  predicate Suits(c: Config) {
    Safe(c.critical) && (Safe(c.warning) || c.warning >= c.critical)
  }

  lemma SuitableCovers(assets: seq<Asset>, c: Config, i: nat)
    requires Suits(c) && i < |assets|
    ensures
      var ds := DriftsOf(assets, TotalValue(assets), c);
      Severity(Judge(MaxOf(ds), c)) >= Severity(ds[i].status)
  {
    var ds := DriftsOf(assets, TotalValue(assets), c);
    DriftsAreRounded(assets, TotalValue(assets), c);
    MaxExact(ds);
    var x := RawDrift(assets[i]);
    assert ds[i].absoluteDrift == ToFixed4(x) <= MaxOf(ds);
    if x >= c.critical {
      SafeExact(c.critical, x);
    } else if x >= c.warning {
      SafeExact(c.warning, x);
    }
  }

  lemma OneAssetLost(c: Config, t: real)
    requires t > 0.0 && !Safe(t)
    requires t == c.critical || (t == c.warning && c.warning < c.critical)
    ensures !Covers([Asset("", t, 0.0, 0.0)], c)
  {
    var assets := [Asset("", t, 0.0, 0.0)];
    var s := SnapshotOf("", assets, Some(c), 0);
    var ds := s.assets;
    assert RawDrift(assets[0]) == t && MaxOf(ds) == ToFixed4(t) < t;
    assert !CoversAt(s, 0);
  }

  /**
   Assets are judged before rounding, the portfolio after it. The portfolio is judged at least as
   severely as every asset, for all assets, if and only if no threshold that counts is rounded down.
   */
  lemma StatusCoversIff(c: Config)
    ensures (forall assets :: Covers(assets, c)) <==> Suits(c)
  {
    if Suits(c) {
      forall assets
        ensures Covers(assets, c)
      {
        forall p, now, i | 0 <= i < |assets|
          ensures CoversAt(SnapshotOf(p, assets, Some(c), now), i)
        {
          SuitableCovers(assets, c, i);
        }
      }
    } else {
      var t := if Safe(c.critical) then c.warning else c.critical;
      OneAssetLost(c, t);
    }
  }

  /** The drift that an alert shows reaches the threshold it names, unless that threshold was rounded down. */
  lemma AlertReachesThreshold(a: Asset, totalValue: real, p: string, c: Config, now: int)
    ensures
      var d := DriftOf(a, totalValue, c);
      var alert := AlertFor(p, d, c, now);
      && alert.threshold == (if RawDrift(a) >= c.critical then c.critical else c.warning)
      && (!d.status.OnTarget? && Safe(alert.threshold) ==> alert.currentDrift >= alert.threshold)
  {
    var t := if RawDrift(a) >= c.critical then c.critical else c.warning;
    if Safe(t) && RawDrift(a) >= t {
      SafeExact(t, RawDrift(a));
    }
  }
}
