/** Multi-asset staking with cached views (src/staking/portfolio.service.ts). Amounts are exact. */
module Staking {
  datatype Position = Position(
    assetId: string, stakedAmount: real, yieldRate: real, termDays: real, unlockedAt: int, accruedYield: real)

  datatype StakeAsset = StakeAsset(assetId: string, amount: real, termDays: real)

  datatype WithdrawAsset = WithdrawAsset(assetId: string, amount: real)

  datatype Withdrawal = Withdrawal(assetId: string, amount: real, unlocked: bool)

  datatype Share = Share(assetId: string, currentAllocation: real, targetAllocation: real)

  datatype View = View(
    stakerId: string, totalValue: real, totalYield: real, positions: seq<Position>, recommended: seq<Share>)

  datatype Yield = Yield(stakerId: string, totalYield: real, assets: seq<(string, real)>)

  datatype Cached<+T> = Cached(value: T, expiresAt: int)

  // The two kinds of cache keys start differently, so each kind is a map of its own.
  datatype State = State(
    portfolio: map<string, seq<Position>>,
    views: map<string, Cached<View>>,
    aggregates: map<string, Cached<Yield>>)

  datatype Error = Invalid | NotFound

  datatype Result<+T> = Ok(value: T) | Err(error: Error)

  const DAY_MS := 86400000.0
  const CACHE_TTL_MS := 300000

  /* ---------- Positions ---------- */

  // The nearest multiple of 1 / unit, the larger of two.
  function Rounded(x: real, unit: real): real
    requires unit > 0.0
  {
    (x * unit + 0.5).Floor as real / unit
  }

  function CalculateYield(amount: real, rate: real, termDays: real): real {
    Rounded(amount * rate * (termDays / 365.0), 100000000.0)
  }

  // A `Date` drops the fraction of a millisecond.
  function DateOf(ms: real): int {
    if ms >= 0.0 then ms.Floor else -(-ms).Floor
  }

  // The asset registry as a map of rates.
  function NewPosition(rates: map<string, real>, a: StakeAsset, now: int): Position {
    var rate := if a.assetId in rates then rates[a.assetId] else 0.0;
    Position(
      a.assetId, a.amount, rate, a.termDays, DateOf(now as real + a.termDays * DAY_MS),
      CalculateYield(a.amount, rate, a.termDays))
  }

  function NewPositions(rates: map<string, real>, assets: seq<StakeAsset>, now: int): seq<Position> {
    if assets == [] then [] else [NewPosition(rates, assets[0], now)] + NewPositions(rates, assets[1..], now)
  }

  predicate ValidStake(rates: map<string, real>, stakerId: string, assets: seq<StakeAsset>) {
    && stakerId != "" && assets != []
    && forall i :: 0 <= i < |assets| ==>
         assets[i].assetId in rates && assets[i].amount > 0.0 && assets[i].termDays > 0.0
  }

  // The first position of the asset that holds the amount, or the length of the list.
  function FindPosition(ps: seq<Position>, a: WithdrawAsset): (i: nat)
    ensures i <= |ps|
    ensures i < |ps| ==> ps[i].assetId == a.assetId && ps[i].stakedAmount >= a.amount
    ensures forall j :: 0 <= j < i ==> !(ps[j].assetId == a.assetId && ps[j].stakedAmount >= a.amount)
  {
    if ps == [] then 0
    else if ps[0].assetId == a.assetId && ps[0].stakedAmount >= a.amount then 0
    else 1 + FindPosition(ps[1..], a)
  }

  predicate Unlocked(p: Position, now: int) {
    p.unlockedAt <= now
  }

  // An emptied position is taken out of the list.
  function Reduced(ps: seq<Position>, i: nat, amount: real): seq<Position>
    requires i < |ps|
  {
    var left := ps[i].stakedAmount - amount;
    if left == 0.0 then ps[..i] + ps[i + 1..] else ps[i := ps[i].(stakedAmount := left)]
  }

  function WithdrawOne(ps: seq<Position>, a: WithdrawAsset, now: int): (seq<Position>, Withdrawal) {
    var i := FindPosition(ps, a);
    if i == |ps| || !Unlocked(ps[i], now) then (ps, Withdrawal(a.assetId, a.amount, false))
    else (Reduced(ps, i, a.amount), Withdrawal(a.assetId, a.amount, true))
  }

  function WithdrawAll(ps: seq<Position>, assets: seq<WithdrawAsset>, now: int): (seq<Position>, seq<Withdrawal>) {
    if assets == [] then (ps, [])
    else
      var n := |assets| - 1;
      var (qs, ws) := WithdrawAll(ps, assets[..n], now);
      var (rs, w) := WithdrawOne(qs, assets[n], now);
      (rs, ws + [w])
  }

  /* ---------- Views ---------- */

  function TotalStaked(ps: seq<Position>): real {
    if ps == [] then 0.0 else ps[0].stakedAmount + TotalStaked(ps[1..])
  }

  function TotalYield(ps: seq<Position>): real {
    if ps == [] then 0.0 else ps[0].accruedYield + TotalYield(ps[1..])
  }

  // What is staked in one asset.
  function Staked(ps: seq<Position>, asset: string): real {
    if ps == [] then 0.0
    else (if ps[0].assetId == asset then ps[0].stakedAmount else 0.0) + Staked(ps[1..], asset)
  }

  // The assets in the order in which they first occur.
  function Assets(ps: seq<Position>): seq<string> {
    if ps == [] then []
    else
      var n := |ps| - 1;
      var before := Assets(ps[..n]);
      if ps[n].assetId in before then before else before + [ps[n].assetId]
  }

  predicate Positive(ps: seq<Position>) {
    forall i :: 0 <= i < |ps| ==> ps[i].stakedAmount > 0.0
  }

  lemma TotalPositive(ps: seq<Position>)
    requires Positive(ps)
    ensures TotalStaked(ps) >= 0.0 && (ps != [] ==> TotalStaked(ps) > 0.0)
  {
  }

  function Recommended(ps: seq<Position>): seq<Share>
    requires Positive(ps)
  {
    TotalPositive(ps);
    var assets := Assets(ps);
    seq(|assets|, i requires 0 <= i < |assets| =>
      NonEmpty(ps);
      Share(
        assets[i],
        Rounded(Staked(ps, assets[i]) / TotalStaked(ps) * 100.0, 100.0),
        Rounded(1.0 / |assets| as real * 100.0, 100.0)))
  }

  lemma NonEmpty(ps: seq<Position>)
    ensures Assets(ps) != [] ==> ps != []
  {
  }

  function ViewOf(stakerId: string, ps: seq<Position>): View
    requires Positive(ps)
  {
    View(stakerId, TotalStaked(ps), TotalYield(ps), ps, Recommended(ps))
  }

  function YieldOf(stakerId: string, ps: seq<Position>): Yield {
    Yield(stakerId, TotalYield(ps), seq(|ps|, i requires 0 <= i < |ps| => (ps[i].assetId, ps[i].accruedYield)))
  }

  /* ---------- What the operations do ---------- */

  function Held(s: State, stakerId: string): seq<Position> {
    if stakerId in s.portfolio then s.portfolio[stakerId] else []
  }

  function Invalidated(s: State, stakerId: string): State {
    s.(views := s.views - {stakerId}, aggregates := s.aggregates - {stakerId})
  }

  function StakeStep(s: State, rates: map<string, real>, stakerId: string, assets: seq<StakeAsset>, now: int):
    (State, Result<seq<Position>>)
  {
    if !ValidStake(rates, stakerId, assets) then (s, Err(Invalid))
    else
      var ps := NewPositions(rates, assets, now);
      (Invalidated(s.(portfolio := s.portfolio[stakerId := Held(s, stakerId) + ps]), stakerId), Ok(ps))
  }

  function WithdrawStep(s: State, stakerId: string, assets: seq<WithdrawAsset>, now: int):
    (State, Result<seq<Withdrawal>>)
  {
    if Held(s, stakerId) == [] then (s, Err(NotFound))
    else
      var (ps, ws) := WithdrawAll(Held(s, stakerId), assets, now);
      (Invalidated(s.(portfolio := s.portfolio[stakerId := ps]), stakerId), Ok(ws))
  }

  // An entry still counts at the moment it expires.
  predicate Fresh<T>(cache: map<string, Cached<T>>, key: string, now: int) {
    key in cache && !(cache[key].expiresAt < now)
  }

  function ViewStep(s: State, stakerId: string, now: int): (State, Result<View>)
    requires forall id :: id in s.portfolio ==> Positive(s.portfolio[id])
  {
    if Fresh(s.views, stakerId, now) then (s, Ok(s.views[stakerId].value))
    else if stakerId !in s.portfolio then (s.(views := s.views - {stakerId}), Err(NotFound))
    else
      var view := ViewOf(stakerId, s.portfolio[stakerId]);
      (s.(views := s.views[stakerId := Cached(view, now + CACHE_TTL_MS)]), Ok(view))
  }

  function YieldStep(s: State, stakerId: string, now: int): (State, Result<Yield>) {
    if Fresh(s.aggregates, stakerId, now) then (s, Ok(s.aggregates[stakerId].value))
    else if stakerId !in s.portfolio then (s.(aggregates := s.aggregates - {stakerId}), Err(NotFound))
    else
      var y := YieldOf(stakerId, s.portfolio[stakerId]);
      (s.(aggregates := s.aggregates[stakerId := Cached(y, now + CACHE_TTL_MS)]), Ok(y))
  }

  /* ---------- The service ---------- */

  class PortfolioService {
    const rates: map<string, real>
    var portfolioData: map<string, seq<Position>>
    var views: map<string, Cached<View>>
    var aggregates: map<string, Cached<Yield>>

    constructor (rates: map<string, real>)
      ensures this.rates == rates && Contents() == State(map[], map[], map[])
    {
      this.rates := rates;
      portfolioData, views, aggregates := map[], map[], map[];
    }

    function Contents(): State
      reads this
    {
      State(portfolioData, views, aggregates)
    }

    method InvalidateCache(stakerId: string)
      modifies this
      ensures Contents() == Invalidated(old(Contents()), stakerId)
    {
      views := views - {stakerId};
      aggregates := aggregates - {stakerId};
    }

    method ValidateStakeRequest(stakerId: string, assets: seq<StakeAsset>) returns (ok: bool)
      ensures ok <==> ValidStake(rates, stakerId, assets)
    {
      if stakerId == "" || |assets| == 0 {
        return false;
      }
      for i := 0 to |assets|
        invariant forall j :: 0 <= j < i ==>
          assets[j].assetId in rates && assets[j].amount > 0.0 && assets[j].termDays > 0.0
      {
        if assets[i].assetId !in rates {
          return false;
        }
        if assets[i].amount <= 0.0 || assets[i].termDays <= 0.0 {
          return false;
        }
      }
      return true;
    }

    method StakeMulti(stakerId: string, assets: seq<StakeAsset>, now: int) returns (r: Result<seq<Position>>)
      modifies this
      ensures (Contents(), r) == StakeStep(old(Contents()), rates, stakerId, assets, now)
    {
      var ok := ValidateStakeRequest(stakerId, assets);
      if !ok {
        return Err(Invalid);
      }
      var positions := NewPositions(rates, assets, now);
      var before := if stakerId in portfolioData then portfolioData[stakerId] else [];
      portfolioData := portfolioData[stakerId := before + positions];
      InvalidateCache(stakerId);
      r := Ok(positions);
    }

    method WithdrawMulti(stakerId: string, assets: seq<WithdrawAsset>, now: int)
      returns (r: Result<seq<Withdrawal>>)
      modifies this
      ensures (Contents(), r) == WithdrawStep(old(Contents()), stakerId, assets, now)
    {
      if stakerId !in portfolioData || |portfolioData[stakerId]| == 0 {
        return Err(NotFound);
      }
      var positions := portfolioData[stakerId];
      var withdrawals: seq<Withdrawal> := [];
      for k := 0 to |assets|
        invariant (positions, withdrawals) == WithdrawAll(old(portfolioData[stakerId]), assets[..k], now)
      {
        assert assets[..k + 1][..k] == assets[..k];
        var asset := assets[k];
        var i := FindPosition(positions, asset);
        if i == |positions| {
          withdrawals := withdrawals + [Withdrawal(asset.assetId, asset.amount, false)];
          continue;
        }
        var unlocked := positions[i].unlockedAt <= now;
        if !unlocked {
          withdrawals := withdrawals + [Withdrawal(asset.assetId, asset.amount, false)];
          continue;
        }
        var left := positions[i].stakedAmount - asset.amount;
        if left == 0.0 {
          positions := positions[..i] + positions[i + 1..];
        } else {
          positions := positions[i := positions[i].(stakedAmount := left)];
        }
        withdrawals := withdrawals + [Withdrawal(asset.assetId, asset.amount, true)];
      }
      assert assets[..|assets|] == assets;
      portfolioData := portfolioData[stakerId := positions];
      InvalidateCache(stakerId);
      r := Ok(withdrawals);
    }

    method GetPortfolioView(stakerId: string, now: int) returns (r: Result<View>)
      requires forall id :: id in portfolioData ==> Positive(portfolioData[id])
      modifies this
      ensures (Contents(), r) == ViewStep(old(Contents()), stakerId, now)
    {
      if stakerId !in views || views[stakerId].expiresAt < now {
        views := views - {stakerId};
      } else {
        return Ok(views[stakerId].value);
      }
      if stakerId !in portfolioData {
        return Err(NotFound);
      }
      var view := ViewOf(stakerId, portfolioData[stakerId]);
      views := views[stakerId := Cached(view, now + CACHE_TTL_MS)];
      assert views == old(views)[stakerId := Cached(view, now + CACHE_TTL_MS)];
      r := Ok(view);
    }

    method GetAggregatedYield(stakerId: string, now: int) returns (r: Result<Yield>)
      modifies this
      ensures (Contents(), r) == YieldStep(old(Contents()), stakerId, now)
    {
      if stakerId !in aggregates || aggregates[stakerId].expiresAt < now {
        aggregates := aggregates - {stakerId};
      } else {
        return Ok(aggregates[stakerId].value);
      }
      if stakerId !in portfolioData {
        return Err(NotFound);
      }
      var y := YieldOf(stakerId, portfolioData[stakerId]);
      aggregates := aggregates[stakerId := Cached(y, now + CACHE_TTL_MS)];
      assert aggregates == old(aggregates)[stakerId := Cached(y, now + CACHE_TTL_MS)];
      r := Ok(y);
    }
  }

  /* ---------- One withdrawal request ---------- */

  // What was reported as paid out of one asset.
  function PaidOut(ws: seq<Withdrawal>, asset: string): real {
    if ws == [] then 0.0
    else
      var n := |ws| - 1;
      PaidOut(ws[..n], asset) + if ws[n].unlocked && ws[n].assetId == asset then ws[n].amount else 0.0
  }

  // The positions that are still locked.
  function Locked(ps: seq<Position>, now: int): seq<Position> {
    if ps == [] then []
    else (if Unlocked(ps[0], now) then [] else [ps[0]]) + Locked(ps[1..], now)
  }

  lemma {:induction false} StakedConcat(a: seq<Position>, b: seq<Position>, asset: string)
    ensures Staked(a + b, asset) == Staked(a, asset) + Staked(b, asset)
  {
    if a == [] {
      assert a + b == b;
    } else {
      assert (a + b)[1..] == a[1..] + b;
      StakedConcat(a[1..], b, asset);
    }
  }

  lemma {:induction false} LockedConcat(a: seq<Position>, b: seq<Position>, now: int)
    ensures Locked(a + b, now) == Locked(a, now) + Locked(b, now)
  {
    if a == [] {
      assert a + b == b;
    } else {
      assert (a + b)[1..] == a[1..] + b;
      LockedConcat(a[1..], b, now);
    }
  }

  lemma {:induction false} ReducedExact(ps: seq<Position>, i: nat, amount: real, asset: string, now: int)
    requires i < |ps| && Unlocked(ps[i], now) && ps[i].stakedAmount >= amount
    ensures
      var qs := Reduced(ps, i, amount);
      && Staked(ps, asset) == Staked(qs, asset) + (if ps[i].assetId == asset then amount else 0.0)
      && Locked(qs, now) == Locked(ps, now)
      && (Positive(ps) ==> Positive(qs))
  {
    var a, p, b := ps[..i], ps[i], ps[i + 1..];
    var left := p.stakedAmount - amount;
    var mid := if left == 0.0 then [] else [p.(stakedAmount := left)];
    assert ps == a + ([p] + b);
    assert Reduced(ps, i, amount) == a + (mid + b);
    StakedConcat(a, [p] + b, asset);
    StakedConcat([p], b, asset);
    StakedConcat(a, mid + b, asset);
    StakedConcat(mid, b, asset);
    LockedConcat(a, [p] + b, now);
    LockedConcat([p], b, now);
    LockedConcat(a, mid + b, now);
    LockedConcat(mid, b, now);
    assert Staked([p], asset) == Staked(mid, asset) + if p.assetId == asset then amount else 0.0;
    assert Locked([p], now) == Locked(mid, now) == [];
  }

  /**
   A request to withdraw conserves every asset: what was staked is what is still staked and what was
   reported as paid out. Positions stay positive and those still locked are untouched, in their order.
   */
  lemma {:induction false} WithdrawConserves(ps: seq<Position>, assets: seq<WithdrawAsset>, now: int, asset: string)
    ensures
      var (qs, ws) := WithdrawAll(ps, assets, now);
      && Staked(ps, asset) == Staked(qs, asset) + PaidOut(ws, asset)
      && Locked(qs, now) == Locked(ps, now)
      && (Positive(ps) ==> Positive(qs))
  {
    if assets != [] {
      var n := |assets| - 1;
      WithdrawConserves(ps, assets[..n], now, asset);
      var (qs, ws) := WithdrawAll(ps, assets[..n], now);
      var i := FindPosition(qs, assets[n]);
      var (rs, w) := WithdrawOne(qs, assets[n], now);
      assert (ws + [w])[..|ws|] == ws;
      if i < |qs| && Unlocked(qs[i], now) {
        ReducedExact(qs, i, assets[n].amount, asset, now);
      }
    }
  }

  /* ---------- Runs ---------- */

  datatype Op =
    | Stake(stakerId: string, stakes: seq<StakeAsset>, now: int)
    | Withdraw(stakerId: string, withdrawals: seq<WithdrawAsset>, now: int)
    | ReadView(stakerId: string, now: int)
    | ReadYield(stakerId: string, now: int)

  ghost predicate AllPositive(s: State) {
    forall id :: id in s.portfolio ==> Positive(s.portfolio[id])
  }

  function Step(s: State, rates: map<string, real>, op: Op): State
    requires AllPositive(s)
  {
    match op
    case Stake(id, stakes, now) => StakeStep(s, rates, id, stakes, now).0
    case Withdraw(id, withdrawals, now) => WithdrawStep(s, id, withdrawals, now).0
    case ReadView(id, now) => ViewStep(s, id, now).0
    case ReadYield(id, now) => YieldStep(s, id, now).0
  }

  // Every cached view is what computing it now would give.
  ghost predicate ViewsCurrent(s: State) {
    forall id :: id in s.views ==>
      id in s.portfolio && Positive(s.portfolio[id]) && s.views[id].value == ViewOf(id, s.portfolio[id])
  }

  ghost predicate YieldsCurrent(s: State) {
    forall id :: id in s.aggregates ==> id in s.portfolio && s.aggregates[id].value == YieldOf(id, s.portfolio[id])
  }

  ghost predicate Coherent(s: State) {
    AllPositive(s) && ViewsCurrent(s) && YieldsCurrent(s)
  }

  lemma {:induction false} NewPositionsPositive(rates: map<string, real>, assets: seq<StakeAsset>, now: int)
    requires forall i :: 0 <= i < |assets| ==> assets[i].amount > 0.0
    ensures Positive(NewPositions(rates, assets, now))
  {
    if assets != [] {
      NewPositionsPositive(rates, assets[1..], now);
    }
  }

  // Other stakers keep what they have, and the cached views of this one are dropped.
  lemma {:induction false} ReplacedCoherent(s: State, id: string, ps: seq<Position>)
    requires Coherent(s) && Positive(ps)
    ensures Coherent(Invalidated(s.(portfolio := s.portfolio[id := ps]), id))
  {
    hide ViewOf, YieldOf;
  }

  lemma {:induction false} ReadCoherent(s: State, id: string, now: int)
    requires Coherent(s)
    ensures Coherent(ViewStep(s, id, now).0) && Coherent(YieldStep(s, id, now).0)
  {
    hide ViewOf, YieldOf;
  }

  lemma {:induction false} StepCoherent(s: State, rates: map<string, real>, op: Op)
    requires Coherent(s)
    ensures Coherent(Step(s, rates, op))
  {
    match op
    case Stake(id, stakes, now) =>
      if ValidStake(rates, id, stakes) {
        NewPositionsPositive(rates, stakes, now);
        hide NewPositions;
        assert Positive(Held(s, id) + NewPositions(rates, stakes, now));
        ReplacedCoherent(s, id, Held(s, id) + NewPositions(rates, stakes, now));
        hide Coherent, Positive;
      }
    case Withdraw(id, withdrawals, now) =>
      WithdrawConserves(Held(s, id), withdrawals, now, "");
      hide WithdrawAll;
      if Held(s, id) != [] {
        ReplacedCoherent(s, id, WithdrawAll(Held(s, id), withdrawals, now).0);
      }
      hide Coherent, Positive;
    case ReadView(id, now) =>
      ReadCoherent(s, id, now);
    case ReadYield(id, now) =>
      ReadCoherent(s, id, now);
  }

  ghost function Run(rates: map<string, real>, ops: seq<Op>): (s: State)
    ensures Coherent(s)
  {
    if ops == [] then State(map[], map[], map[])
    else
      var s := Run(rates, ops[..|ops| - 1]);
      StepCoherent(s, rates, ops[|ops| - 1]);
      Step(s, rates, ops[|ops| - 1])
  }

  /** After any run, reading a view or a yield at any time gives what computing it afresh would give. */
  lemma ReadsAreCurrent(rates: map<string, real>, ops: seq<Op>, id: string, now: int)
    ensures
      var s := Run(rates, ops);
      && ViewStep(s, id, now).1 == (if id in s.portfolio then Ok(ViewOf(id, s.portfolio[id])) else Err(NotFound))
      && YieldStep(s, id, now).1 == (if id in s.portfolio then Ok(YieldOf(id, s.portfolio[id])) else Err(NotFound))
  {
    var s := Run(rates, ops);
    assert Coherent(s);
  }

  function Deposits(assets: seq<StakeAsset>, asset: string): real {
    if assets == [] then 0.0
    else (if assets[0].assetId == asset then assets[0].amount else 0.0) + Deposits(assets[1..], asset)
  }

  // What an operation was reported to put into (or, negative, take out of) an asset of a staker.
  ghost function Flow(s: State, rates: map<string, real>, op: Op, id: string, asset: string): real {
    match op
    case Stake(i, stakes, now) =>
      if i == id && StakeStep(s, rates, i, stakes, now).1.Ok? then Deposits(stakes, asset) else 0.0
    case Withdraw(i, withdrawals, now) =>
      var r := WithdrawStep(s, i, withdrawals, now).1;
      if i == id && r.Ok? then -PaidOut(r.value, asset) else 0.0
    case _ => 0.0
  }

  ghost function Balance(rates: map<string, real>, ops: seq<Op>, id: string, asset: string): real {
    if ops == [] then 0.0
    else
      var n := |ops| - 1;
      Balance(rates, ops[..n], id, asset) + Flow(Run(rates, ops[..n]), rates, ops[n], id, asset)
  }

  lemma {:induction false} NewPositionsStaked(rates: map<string, real>, assets: seq<StakeAsset>, now: int,
                                              asset: string)
    ensures Staked(NewPositions(rates, assets, now), asset) == Deposits(assets, asset)
  {
    if assets != [] {
      NewPositionsStaked(rates, assets[1..], now, asset);
    }
  }

  lemma {:induction false} StepBalances(s: State, rates: map<string, real>, op: Op, id: string, asset: string)
    requires AllPositive(s)
    ensures Staked(Held(Step(s, rates, op), id), asset) == Staked(Held(s, id), asset) + Flow(s, rates, op, id, asset)
  {
    hide NewPositions, WithdrawAll, PaidOut, Deposits, ViewOf, YieldOf;
    match op
    case Stake(i, stakes, now) =>
      NewPositionsStaked(rates, stakes, now, asset);
      StakedConcat(Held(s, i), NewPositions(rates, stakes, now), asset);
    case Withdraw(i, withdrawals, now) => WithdrawConserves(Held(s, i), withdrawals, now, asset);
    case _ =>
  }

  /**
   After any run, what a staker holds of an asset is what was staked less what was reported as paid out.
   */
  lemma {:induction false} RunBalances(rates: map<string, real>, ops: seq<Op>, id: string, asset: string)
    ensures Staked(Held(Run(rates, ops), id), asset) == Balance(rates, ops, id, asset)
  {
    if ops != [] {
      var n := |ops| - 1;
      RunBalances(rates, ops[..n], id, asset);
      StepBalances(Run(rates, ops[..n]), rates, ops[n], id, asset);
    }
  }

  /**
   The search takes the first position that holds enough, locked or not. So a withdrawal that some
   unlocked position could pay is refused if and only if a locked one that holds enough comes before
   all of those.
   */
  lemma RefusedThoughPayableIff(ps: seq<Position>, a: WithdrawAsset, now: int, k: nat)
    requires k < |ps| && Pays(ps[k], a) && Unlocked(ps[k], now)
    ensures
      !WithdrawOne(ps, a, now).1.unlocked <==>
        exists j :: 0 <= j < |ps| && Pays(ps[j], a) && !Unlocked(ps[j], now) && NoneUnlockedBefore(ps, a, now, j)
  {
    var i := FindPosition(ps, a);
    assert i <= k;
    if !Unlocked(ps[i], now) {
      assert Pays(ps[i], a) && NoneUnlockedBefore(ps, a, now, i);
    } else {
      forall j | 0 <= j < |ps| && Pays(ps[j], a) && !Unlocked(ps[j], now)
        ensures !NoneUnlockedBefore(ps, a, now, j)
      {
        assert i < j && Pays(ps[i], a);
      }
    }
  }

  // Two stakes of one asset, the longer term first.
  function LongThenShort(): Op {
    Stake("u", [StakeAsset("x", 1.0, 2.0), StakeAsset("x", 1.0, 1.0)], 0)
  }

  /** A run that shows it: after one day the shorter stake could be paid, and the request is refused. */
  lemma {:induction false} ShorterTermIsRefused(rates: map<string, real>)
    requires "x" in rates
    ensures
      var s, a, now := Run(rates, [LongThenShort()]), WithdrawAsset("x", 1.0), 86400000;
      && |Held(s, "u")| == 2 && Pays(Held(s, "u")[1], a) && Unlocked(Held(s, "u")[1], now)
      && WithdrawStep(s, "u", [a], now).1 == Ok([Withdrawal("x", 1.0, false)])
  {
    var start, a, now := State(map[], map[], map[]), WithdrawAsset("x", 1.0), 86400000;
    var stakes := LongThenShort().stakes;
    var first, second := NewPosition(rates, stakes[0], 0), NewPosition(rates, stakes[1], 0);
    hide CalculateYield;
    assert [LongThenShort()][..0] == [];
    assert stakes[1..] == [stakes[1]] && [stakes[1]][1..] == [];
    assert NewPositions(rates, [stakes[1]], 0) == [second];
    assert NewPositions(rates, stakes, 0) == [first] + [second];
    assert first.unlockedAt == 172800000 && second.unlockedAt == 86400000;
    var ps := [first] + [second];
    assert FindPosition(ps, a) == 0;
    WithdrawAllOfOne(ps, a, now);
    hide NewPosition, NewPositions, WithdrawAll, FindPosition;
    assert StakeStep(start, rates, "u", stakes, 0).0.portfolio["u"] == ps;
    assert Run(rates, [LongThenShort()]).portfolio["u"] == ps;
  }

  lemma WithdrawAllOfOne(ps: seq<Position>, a: WithdrawAsset, now: int)
    ensures
      var (qs, w) := WithdrawOne(ps, a, now);
      WithdrawAll(ps, [a], now) == (qs, [w])
  {
    assert [a][..0] == [] && WithdrawAll(ps, [a][..0], now) == (ps, []);
    var (qs, w) := WithdrawOne(ps, a, now);
    hide WithdrawOne;
    assert [] + [w] == [w];
  }

  predicate Pays(p: Position, a: WithdrawAsset) {
    p.assetId == a.assetId && p.stakedAmount >= a.amount
  }

  predicate NoneUnlockedBefore(ps: seq<Position>, a: WithdrawAsset, now: int, j: nat)
    requires j <= |ps|
  {
    forall l :: 0 <= l < j ==> !(Pays(ps[l], a) && Unlocked(ps[l], now))
  }

  /* ---------- Allocations ---------- */

  predicate DistinctAssets(assets: seq<string>) {
    forall i, j :: 0 <= i < j < |assets| ==> assets[i] != assets[j]
  }

  function Allocated(ps: seq<Position>, assets: seq<string>): real {
    if assets == [] then 0.0 else Staked(ps, assets[0]) + Allocated(ps, assets[1..])
  }

  lemma {:induction false} AssetsExact(ps: seq<Position>, asset: string)
    ensures DistinctAssets(Assets(ps))
    ensures asset in Assets(ps) <==> exists i :: 0 <= i < |ps| && ps[i].assetId == asset
    ensures asset !in Assets(ps) ==> Staked(ps, asset) == 0.0
  {
    if ps != [] {
      var n := |ps| - 1;
      AssetsExact(ps[..n], asset);
      AssetsExact(ps[..n], ps[n].assetId);
      assert ps == ps[..n] + [ps[n]];
      StakedConcat(ps[..n], [ps[n]], asset);
      if i :| 0 <= i < |ps| && ps[i].assetId == asset {
        assert i < n ==> ps[..n][i] == ps[i];
      }
    }
  }

  lemma {:induction false} AllocatedSnoc(ps: seq<Position>, p: Position, assets: seq<string>)
    requires DistinctAssets(assets)
    ensures
      Allocated(ps + [p], assets) == Allocated(ps, assets) + if p.assetId in assets then p.stakedAmount else 0.0
  {
    if assets != [] {
      AllocatedSnoc(ps, p, assets[1..]);
      StakedConcat(ps, [p], assets[0]);
      assert p.assetId in assets <==> p.assetId == assets[0] || p.assetId in assets[1..];
    }
  }

  lemma {:induction false} AllocatedConcat(ps: seq<Position>, a: seq<string>, b: seq<string>)
    ensures Allocated(ps, a + b) == Allocated(ps, a) + Allocated(ps, b)
  {
    if a == [] {
      assert a + b == b;
    } else {
      assert (a + b)[1..] == a[1..] + b;
      AllocatedConcat(ps, a[1..], b);
    }
  }

  lemma {:induction false} TotalSnoc(ps: seq<Position>, p: Position)
    ensures TotalStaked(ps + [p]) == TotalStaked(ps) + p.stakedAmount
  {
    if ps != [] {
      assert (ps + [p])[1..] == ps[1..] + [p];
      TotalSnoc(ps[1..], p);
    }
  }

  /** The allocation of a portfolio names each asset once, and its amounts add up to the total value. */
  lemma {:induction false} AllocationsAddUp(ps: seq<Position>)
    ensures DistinctAssets(Assets(ps)) && Allocated(ps, Assets(ps)) == TotalStaked(ps)
  {
    if ps != [] {
      var n := |ps| - 1;
      var before, p := ps[..n], ps[n];
      var assets := Assets(before);
      AllocationsAddUp(before);
      AssetsExact(before, p.assetId);
      AssetsExact(ps, p.assetId);
      assert ps == before + [p];
      TotalSnoc(before, p);
      AllocatedSnoc(before, p, assets);
      if p.assetId !in assets {
        AllocatedConcat(ps, assets, [p.assetId]);
        StakedConcat(before, [p], p.assetId);
        assert Allocated(ps, [p.assetId]) == Staked(ps, p.assetId) == p.stakedAmount;
      }
    }
  }

  lemma {:induction false} StakedWithinTotal(ps: seq<Position>, asset: string)
    requires Positive(ps)
    ensures 0.0 <= Staked(ps, asset) <= TotalStaked(ps)
  {
    if ps != [] {
      StakedWithinTotal(ps[1..], asset);
    }
  }

  /** Each share names its asset; its current part lies between 0 and 100, and all targets are equal. */
  lemma SharesInRange(id: string, ps: seq<Position>, i: nat)
    requires Positive(ps) && i < |Assets(ps)|
    ensures
      var shares := ViewOf(id, ps).recommended;
      && |shares| == |Assets(ps)| && shares[i].assetId == Assets(ps)[i]
      && 0.0 <= shares[i].currentAllocation <= 100.0
      && shares[i].targetAllocation == shares[0].targetAllocation
  {
    NonEmpty(ps);
    TotalPositive(ps);
    var x, t := Staked(ps, Assets(ps)[i]), TotalStaked(ps);
    StakedWithinTotal(ps, Assets(ps)[i]);
    ShareRounded(x, t);
  }

  lemma ShareRounded(x: real, t: real)
    requires 0.0 <= x <= t && t > 0.0
    ensures 0.0 <= Rounded(x / t * 100.0, 100.0) <= 100.0
  {
    Fraction(x, t);
    var n := (x / t * 100.0 * 100.0 + 0.5).Floor;
    assert 0.0 <= x / t * 100.0 * 100.0 <= 10000.0;
    assert 0 <= n <= 10000;
  }

  lemma Fraction(x: real, t: real)
    requires 0.0 <= x <= t && t > 0.0
    ensures 0.0 <= x / t <= 1.0
  {
  }
}
