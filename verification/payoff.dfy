/** The expiry payoff of a set of legs over a grid of spot prices. */
module Payoff {
  import opened Chain
  import opened LegNames

  /** Units of the underlying per lot. */
  const LotSize: real := 75.0
  /** The grid starts this far below the lowest strike and stops this far above the highest. */
  const Margin: real := 200.0
  const Step: real := 10.0

  /** The value at expiry of the option a leg names: a put pays max(K - spot, 0), every
      other leg is read as a call paying max(spot - K, 0). */
  function Intrinsic(leg: Leg, spot: real): (v: real)
    ensures v >= 0.0
    ensures IsPut(leg.name) ==> v >= leg.strike - spot && (spot >= leg.strike ==> v == 0.0)
    ensures !IsPut(leg.name) ==> v >= spot - leg.strike && (spot <= leg.strike ==> v == 0.0)
    ensures IsPut(leg.name) && spot <= leg.strike ==> v == leg.strike - spot
    ensures !IsPut(leg.name) && spot >= leg.strike ==> v == spot - leg.strike
  {
    if IsPut(leg.name) then Max(leg.strike - spot, 0.0) else Max(spot - leg.strike, 0.0)
  }

  /** One leg's profit per unit: a sold leg keeps its premium less the intrinsic value,
      a bought leg earns the intrinsic value less its premium. */
  function LegProfit(leg: Leg, spot: real): real
  {
    if IsSold(leg.name) then leg.premium - Intrinsic(leg, spot) else Intrinsic(leg, spot) - leg.premium
  }

  /** The per-unit profit of all legs at one spot price. */
  function Profit(legs: seq<Leg>, spot: real): real
  {
    if |legs| == 0 then 0.0 else LegProfit(legs[0], spot) + Profit(legs[1..], spot)
  }

  /** Premium received for sold legs less premium paid for bought ones. */
  function NetCredit(legs: seq<Leg>): real
  {
    if |legs| == 0 then 0.0
    else (if IsSold(legs[0].name) then legs[0].premium else -legs[0].premium) + NetCredit(legs[1..])
  }

  function MinStrike(legs: seq<Leg>): (m: real)
    requires |legs| > 0
    ensures exists k :: 0 <= k < |legs| && legs[k].strike == m
    ensures forall k :: 0 <= k < |legs| ==> m <= legs[k].strike
  {
    if |legs| == 1 then legs[0].strike
    else
      var rest := MinStrike(legs[1..]);
      assert forall k :: 1 <= k < |legs| ==> legs[1..][k - 1] == legs[k];
      if legs[0].strike <= rest then legs[0].strike else rest
  }

  function MaxStrike(legs: seq<Leg>): (m: real)
    requires |legs| > 0
    ensures exists k :: 0 <= k < |legs| && legs[k].strike == m
    ensures forall k :: 0 <= k < |legs| ==> legs[k].strike <= m
  {
    if |legs| == 1 then legs[0].strike
    else
      var rest := MaxStrike(legs[1..]);
      assert forall k :: 1 <= k < |legs| ==> legs[1..][k - 1] == legs[k];
      if rest <= legs[0].strike then legs[0].strike else rest
  }

  /** The number of points of an evenly spaced range from start, strictly below stop. */
  function GridCount(start: real, stop: real): (n: nat)
    ensures n == 0 || start + Step * (n - 1) as real < stop
    ensures start + Step * n as real >= stop
  {
    if stop <= start then 0
    else
      var q := ((stop - start) / Step).Floor;
      assert q as real <= (stop - start) / Step < q as real + 1.0;
      if q as real * Step == stop - start then q else q + 1
  }

  /** `np.arange(start, stop, 10)`: start, start + 10, ... up to but excluding stop. */
  function Arange(start: real, stop: real): (grid: seq<real>)
    ensures |grid| == GridCount(start, stop)
    ensures forall k :: 0 <= k < |grid| ==> grid[k] == start + Step * k as real
    ensures forall k :: 0 <= k < |grid| ==> start <= grid[k] < stop
    ensures forall i, j :: 0 <= i < j < |grid| ==> grid[i] < grid[j]
  {
    seq(GridCount(start, stop), k => start + Step * k as real)
  }

  /** The grid holds exactly the steps from start that lie below stop: step n is present
      if and only if start + 10n < stop. */
  lemma ArangeStepsBelowStop(start: real, stop: real, n: nat)
    ensures n < |Arange(start, stop)| <==> start + Step * n as real < stop
  {
    var count := GridCount(start, stop);
    if n < count {
      assert Step * n as real <= Step * (count - 1) as real;
    } else {
      assert Step * n as real >= Step * count as real;
    }
  }

  datatype Point = Point(spot: real, payoff: real)

  /** The payoff curve: one point per grid spot, from 200 below the lowest strike in steps
      of 10 while below 200 above the highest, each the lot-scaled profit of all legs. */
  function PayoffCurve(legs: seq<Leg>): (curve: seq<Point>)
    requires |legs| > 0
    ensures |curve| > 0 && curve[0].spot == MinStrike(legs) - Margin
    ensures forall k :: 0 <= k < |curve| ==> curve[k].spot == MinStrike(legs) - Margin + Step * k as real
    ensures forall k :: 0 <= k < |curve| ==> curve[k].spot < MaxStrike(legs) + Margin
    ensures curve[|curve| - 1].spot + Step >= MaxStrike(legs) + Margin
    ensures forall k :: 0 <= k < |curve| ==> curve[k].payoff == LotSize * Profit(legs, curve[k].spot)
  {
    var grid := Arange(MinStrike(legs) - Margin, MaxStrike(legs) + Margin);
    seq(|grid|, k requires 0 <= k < |grid| => Point(grid[k], LotSize * Profit(legs, grid[k])))
  }

  /** The profit of two leg lists together is the sum of their profits. */
  lemma {:induction false} ProfitAppend(a: seq<Leg>, b: seq<Leg>, spot: real)
    ensures Profit(a + b, spot) == Profit(a, spot) + Profit(b, spot)
    decreases |a|
  {
    if |a| == 0 {
      assert a + b == b;
    } else {
      assert (a + b)[0] == a[0];
      assert (a + b)[1..] == a[1..] + b;
      ProfitAppend(a[1..], b, spot);
    }
  }

  /** Between the put strikes and the call strikes no option is in the money, so the
      profit is the net premium. */
  lemma {:induction false} FlatBetweenStrikes(legs: seq<Leg>, spot: real)
    requires forall k :: 0 <= k < |legs| && IsPut(legs[k].name) ==> legs[k].strike <= spot
    requires forall k :: 0 <= k < |legs| && !IsPut(legs[k].name) ==> spot <= legs[k].strike
    ensures Profit(legs, spot) == NetCredit(legs)
    decreases |legs|
  {
    if |legs| > 0 {
      assert Intrinsic(legs[0], spot) == 0.0;
      assert forall k :: 1 <= k < |legs| ==> legs[1..][k - 1] == legs[k];
      FlatBetweenStrikes(legs[1..], spot);
    }
  }

  /** The wider of the two spreads of a condor. */
  function WidestSpread(legs: seq<Leg>): real
    requires IronCondor(legs)
  {
    Max(legs[0].strike - legs[1].strike, legs[3].strike - legs[2].strike)
  }

  /** A condor's risk is defined: its profit never exceeds the net credit and never falls
      below the net credit less the wider spread. */
  lemma CondorProfitBounds(legs: seq<Leg>, spot: real)
    requires IronCondor(legs)
    ensures NetCredit(legs) - WidestSpread(legs) <= Profit(legs, spot) <= NetCredit(legs)
  {
    StandardNames();
    var tail3, tail2, tail1 := legs[1..], legs[2..], legs[3..];
    assert tail3[0] == legs[1] && tail2[0] == legs[2] && tail1[0] == legs[3];
    assert tail3[1..] == tail2 && tail2[1..] == tail1 && tail1[1..] == [];
    assert NetCredit(tail1) == -legs[3].premium;
    assert NetCredit(tail2) == legs[2].premium - legs[3].premium;
    assert NetCredit(tail3) == -legs[1].premium + legs[2].premium - legs[3].premium;
    var i0, i1, i2, i3 := Intrinsic(legs[0], spot), Intrinsic(legs[1], spot), Intrinsic(legs[2], spot), Intrinsic(legs[3], spot);
    assert Profit(tail1, spot) == i3 - legs[3].premium;
    assert Profit(tail2, spot) == legs[2].premium - i2 + i3 - legs[3].premium;
    assert Profit(tail3, spot) == i1 - legs[1].premium + legs[2].premium - i2 + i3 - legs[3].premium;
    assert Profit(legs, spot) - NetCredit(legs) == i1 - i0 + i3 - i2;
  }

  /** Every point of a condor's payoff curve lies between the lot-scaled maximum loss and
      maximum gain. */
  lemma CondorCurveBounds(legs: seq<Leg>)
    requires IronCondor(legs)
    ensures forall k :: 0 <= k < |PayoffCurve(legs)| ==>
              LotSize * (NetCredit(legs) - WidestSpread(legs)) <= PayoffCurve(legs)[k].payoff <= LotSize * NetCredit(legs)
  {
    var curve := PayoffCurve(legs);
    forall k | 0 <= k < |curve|
      ensures LotSize * (NetCredit(legs) - WidestSpread(legs)) <= curve[k].payoff <= LotSize * NetCredit(legs)
    {
      CondorProfitBounds(legs, curve[k].spot);
    }
  }
}
