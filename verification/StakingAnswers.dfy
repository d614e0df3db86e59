/** What staking, withdrawing and reading a portfolio answer, number by number (src/staking/portfolio.service.ts). */
module StakingAnswers {
  import opened Common
  import opened Staking

  /* ---------- Rounding ---------- */

  // `y` is the multiple of 1 / unit nearest to `x`, the larger one of two.
  predicate Nearest(y: real, x: real, unit: real)
    requires unit > 0.0
  {
    (y * unit).Floor as real == y * unit && y * unit - 0.5 <= x * unit < y * unit + 0.5
  }

  lemma RoundedIsNearest(x: real, unit: real)
    requires unit > 0.0
    ensures Nearest(Rounded(x, unit), x, unit)
  {
    RoundedTimes(x, unit);
    NearestFrom(Rounded(x, unit), x, unit, (x * unit + 0.5).Floor);
  }

  lemma RoundedTimes(x: real, unit: real)
    requires unit > 0.0
    ensures Rounded(x, unit) * unit == (x * unit + 0.5).Floor as real
  {
    DivMul((x * unit + 0.5).Floor as real, unit);
  }

  lemma NearestFrom(y: real, x: real, unit: real, n: int)
    requires unit > 0.0 && y * unit == n as real && n == (x * unit + 0.5).Floor
    ensures Nearest(y, x, unit)
  {
    IntegerNearest(n, x * unit);
  }

  lemma IntegerNearest(n: int, x: real)
    requires n == (x + 0.5).Floor
    ensures (n as real).Floor == n && n as real - 0.5 <= x < n as real + 0.5
  {
  }

  lemma DivMul(x: real, unit: real)
    requires unit > 0.0
    ensures x / unit * unit == x
  {
  }

  lemma NearestIsOne(y: real, z: real, x: real, unit: real)
    requires unit > 0.0 && Nearest(y, x, unit) && Nearest(z, x, unit)
    ensures y == z
  {
    var m, n := (y * unit).Floor, (z * unit).Floor;
    assert m == n;
    assert (y - z) * unit == 0.0;
  }

  /* ---------- Staking ---------- */

  // The position that staking makes: the rate of the asset, the end of the term, the yield over the term.
  predicate MadeFor(p: Position, rates: map<string, real>, a: StakeAsset, now: int) {
    && a.assetId in rates
    && p.assetId == a.assetId && p.stakedAmount == a.amount && p.termDays == a.termDays
    && p.yieldRate == rates[a.assetId]
    && Nearest(p.accruedYield, a.amount * rates[a.assetId] * (a.termDays / 365.0), 100000000.0)
    && p.unlockedAt as real <= now as real + a.termDays * 86400000.0 < (p.unlockedAt + 1) as real
  }

  lemma {:induction false} PositionMade(rates: map<string, real>, a: StakeAsset, now: int)
    requires a.assetId in rates && a.termDays > 0.0 && now >= 0
    ensures MadeFor(NewPosition(rates, a, now), rates, a, now)
  {
    var p := NewPosition(rates, a, now);
    RoundedIsNearest(a.amount * rates[a.assetId] * (a.termDays / 365.0), 100000000.0);
    assert a.termDays * 86400000.0 > 0.0;
    assert p.unlockedAt == (now as real + a.termDays * 86400000.0).Floor;
    hide Rounded, Nearest;
  }

  /**
   A request is accepted if and only if it names a staker and at least one asset, all of them known, with
   amounts and terms above zero. It adds one position for each asset, in their order, which unlocks at the
   millisecond in which its term ends; a refused request and the other stakers change nothing.
   */
  lemma {:induction false} StakedExact(s: State, rates: map<string, real>, stakerId: string, assets: seq<StakeAsset>,
                                       now: int)
    requires now >= 0
    ensures
      var (t, r) := StakeStep(s, rates, stakerId, assets, now);
      && (r.Ok? <==>
            && stakerId != "" && |assets| > 0
            && forall i :: 0 <= i < |assets| ==>
                 assets[i].assetId in rates && assets[i].amount > 0.0 && assets[i].termDays > 0.0)
      && (r.Err? ==> t == s && r.error == Invalid)
      && (r.Ok? ==>
            && |r.value| == |assets|
            && (forall i :: 0 <= i < |assets| ==> MadeFor(r.value[i], rates, assets[i], now))
            && Held(t, stakerId) == Held(s, stakerId) + r.value
            && forall id :: id != stakerId ==> Held(t, id) == Held(s, id))
  {
    if ValidStake(rates, stakerId, assets) {
      PositionsMade(rates, assets, now);
    }
    hide NewPositions, MadeFor;
  }

  lemma {:induction false} PositionsMade(rates: map<string, real>, assets: seq<StakeAsset>, now: int)
    requires now >= 0
    requires forall i :: 0 <= i < |assets| ==> assets[i].assetId in rates && assets[i].termDays > 0.0
    ensures |NewPositions(rates, assets, now)| == |assets|
    ensures forall i :: 0 <= i < |assets| ==> MadeFor(NewPositions(rates, assets, now)[i], rates, assets[i], now)
  {
    if assets != [] {
      PositionMade(rates, assets[0], now);
      PositionsMade(rates, assets[1..], now);
      hide MadeFor, NewPosition;
    }
  }

  /* ---------- Withdrawing ---------- */

  // The first position of the asset that holds the amount.
  predicate IsFirstHolder(ps: seq<Position>, a: WithdrawAsset, i: nat) {
    && i < |ps| && ps[i].assetId == a.assetId && ps[i].stakedAmount >= a.amount
    && forall j :: 0 <= j < i ==> !(ps[j].assetId == a.assetId && ps[j].stakedAmount >= a.amount)
  }

  /**
   One withdrawal is paid if and only if the first position that holds enough is past its end. It is taken
   out of that position alone, which goes when nothing is left in it.
   */
  lemma {:induction false} WithdrawnExact(ps: seq<Position>, a: WithdrawAsset, now: int)
    ensures
      var (qs, w) := WithdrawOne(ps, a, now);
      && w.assetId == a.assetId && w.amount == a.amount
      && (w.unlocked <==> exists i: nat :: IsFirstHolder(ps, a, i) && ps[i].unlockedAt <= now)
      && (!w.unlocked ==> qs == ps)
      && forall i: nat :: w.unlocked && IsFirstHolder(ps, a, i) ==>
           if ps[i].stakedAmount > a.amount then
             && |qs| == |ps| && (forall j :: 0 <= j < |ps| && j != i ==> qs[j] == ps[j])
             && qs[i] == ps[i].(stakedAmount := ps[i].stakedAmount - a.amount)
           else |qs| == |ps| - 1 && forall j :: 0 <= j < |qs| ==> qs[j] == ps[if j < i then j else j + 1]
  {
    var i := FindPosition(ps, a);
    assert i < |ps| ==> IsFirstHolder(ps, a, i);
    forall j: nat | IsFirstHolder(ps, a, j)
      ensures j == i
    {
    }
  }

  /* ---------- Reading ---------- */

  function Stakes(ps: seq<Position>): seq<real> {
    seq(|ps|, i requires 0 <= i < |ps| => ps[i].stakedAmount)
  }

  function Yields(ps: seq<Position>): seq<real> {
    seq(|ps|, i requires 0 <= i < |ps| => ps[i].accruedYield)
  }

  // What is staked in one asset.
  function StakesIn(ps: seq<Position>, asset: string): seq<real> {
    seq(|ps|, i requires 0 <= i < |ps| => if ps[i].assetId == asset then ps[i].stakedAmount else 0.0)
  }

  lemma {:induction false} SumFront(x: real, xs: seq<real>)
    ensures SumOf([x] + xs) == x + SumOf(xs)
  {
    if xs != [] {
      var n := |xs| - 1;
      SumFront(x, xs[..n]);
      assert ([x] + xs)[..|xs|] == [x] + xs[..n];
    }
  }

  lemma {:induction false} TotalsAreSums(ps: seq<Position>, asset: string)
    ensures TotalStaked(ps) == SumOf(Stakes(ps)) && TotalYield(ps) == SumOf(Yields(ps))
    ensures Staked(ps, asset) == SumOf(StakesIn(ps, asset))
  {
    if ps != [] {
      var p, rest := ps[0], ps[1..];
      TotalsAreSums(rest, asset);
      assert Stakes(ps) == [p.stakedAmount] + Stakes(rest);
      assert Yields(ps) == [p.accruedYield] + Yields(rest);
      var x := if p.assetId == asset then p.stakedAmount else 0.0;
      assert StakesIn(ps, asset) == [x] + StakesIn(rest, asset);
      SumFront(p.stakedAmount, Stakes(rest));
      SumFront(p.accruedYield, Yields(rest));
      SumFront(x, StakesIn(rest, asset));
    }
  }

  /**
   After any run a view shows the positions held, the sums of their stakes and yields, and for each asset
   held its part of the total in per cent and the equal share, both to two places.
   */
  lemma {:induction false} ViewedExact(rates: map<string, real>, ops: seq<Op>, id: string, now: int)
    ensures
      var s := Run(rates, ops);
      var r := ViewStep(s, id, now).1;
      && (r.Ok? <==> id in s.portfolio)
      && (r.Err? ==> r.error == NotFound)
      && (r.Ok? ==> Shows(r.value, id, s.portfolio[id]))
  {
    var s := Run(rates, ops);
    ReadsAreCurrent(rates, ops, id, now);
    if id in s.portfolio {
      assert Positive(s.portfolio[id]);
      ViewShows(id, s.portfolio[id]);
    }
    hide ViewStep, ViewOf, Run, Shows, Positive;
  }

  predicate Shows(view: View, id: string, ps: seq<Position>) {
    && view.stakerId == id && view.positions == ps
    && view.totalValue == SumOf(Stakes(ps)) && view.totalYield == SumOf(Yields(ps))
    && (forall i :: 0 <= i < |view.recommended| ==>
          ShareShown(view.recommended[i], ps, view.totalValue, |view.recommended|))
  }

  predicate ShareShown(share: Share, ps: seq<Position>, total: real, count: nat) {
    && total > 0.0 && count > 0
    && Nearest(share.currentAllocation, SumOf(StakesIn(ps, share.assetId)) / total * 100.0, 100.0)
    && Nearest(share.targetAllocation, 1.0 / count as real * 100.0, 100.0)
  }

  lemma {:induction false} ViewShows(id: string, ps: seq<Position>)
    requires Positive(ps)
    ensures Shows(ViewOf(id, ps), id, ps)
  {
    TotalsAreSums(ps, "");
    var view := ViewOf(id, ps);
    assert |view.recommended| == |Assets(ps)|;
    hide ShareShown, Recommended;
    forall i | 0 <= i < |Assets(ps)|
      ensures ShareShown(view.recommended[i], ps, view.totalValue, |view.recommended|)
    {
      ShareExact(id, ps, i);
    }
  }

  lemma {:induction false} ShareExact(id: string, ps: seq<Position>, i: nat)
    requires Positive(ps) && i < |Assets(ps)|
    ensures |ViewOf(id, ps).recommended| == |Assets(ps)|
    ensures ShareShown(ViewOf(id, ps).recommended[i], ps, TotalStaked(ps), |Assets(ps)|)
  {
    NonEmpty(ps);
    TotalPositive(ps);
    TotalsAreSums(ps, Assets(ps)[i]);
    RoundedIsNearest(Staked(ps, Assets(ps)[i]) / TotalStaked(ps) * 100.0, 100.0);
    RoundedIsNearest(1.0 / |Assets(ps)| as real * 100.0, 100.0);
    hide Nearest, Rounded, Staked, TotalStaked;
  }

  /** After any run the yield read is the sum of the yields of the positions held, listed in their order. */
  lemma {:induction false} YieldExact(rates: map<string, real>, ops: seq<Op>, id: string, now: int)
    ensures
      var s := Run(rates, ops);
      var r := YieldStep(s, id, now).1;
      && (r.Ok? <==> id in s.portfolio)
      && (r.Err? ==> r.error == NotFound)
      && (r.Ok? ==>
            var ps := s.portfolio[id];
            && r.value.stakerId == id && r.value.totalYield == SumOf(Yields(ps))
            && |r.value.assets| == |ps|
            && forall i :: 0 <= i < |ps| ==>
                 r.value.assets[i].0 == ps[i].assetId && r.value.assets[i].1 == ps[i].accruedYield)
  {
    var s := Run(rates, ops);
    ReadsAreCurrent(rates, ops, id, now);
    if id in s.portfolio {
      TotalsAreSums(s.portfolio[id], "");
    }
    hide YieldStep, Run;
  }
}
