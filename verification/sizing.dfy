/** `custom_stake_amount` of the three strategies: risk a fixed budget between
    the entry rate and a stop price, and stake the matching amount of quote
    currency. The Python code divides without a guard; here a stop at or above
    the entry rate is reported as NonPositiveStopDistance. */
module Sizing {
  import opened Wrappers
  import opened Candle

  /** The shared formula: volume_for_buy = budget / (rate - stop), and the stake
      is that volume priced at `rate`. Losing from `rate` down to `stop` on the
      bought volume costs exactly `budget`. */
  function RiskStake(budget: real, rate: real, stop: real): (r: Result<real, Error>)
    ensures r.Success? <==> stop < rate
    ensures r.Failure? ==> r.error == NonPositiveStopDistance
    ensures r.Success? ==> r.value * (rate - stop) == budget * rate
    ensures r.Success? && rate != 0.0 ==> r.value / rate * (rate - stop) == budget
    ensures r.Success? && rate > 0.0 && budget > 0.0 ==> r.value > 0.0
  {
    if rate - stop <= 0.0 then Failure(NonPositiveStopDistance)
    else
      var volumeForBuy := budget / (rate - stop);
      assert volumeForBuy * (rate - stop) == budget;
      Success(volumeForBuy * rate)
  }

  /** The stake formula exactly as the Python code evaluates it, with no guard
      on the stop distance (a zero distance is excluded, since there the code
      yields inf rather than a number). */
  function UnguardedStake(budget: real, rate: real, stop: real): (s: real)
    requires rate != stop
    ensures s * (rate - stop) == budget * rate
  {
    budget / (rate - stop) * rate
  }

  /** When the rate has already fallen below the rolling low, the unguarded
      formula stakes a negative amount: 90 against a stop of 100 gives -90. */
  lemma UnguardedStakeGoesNegative()
    ensures UnguardedStake(MaxLossPerTrade, 90.0, 100.0) == -90.0
    ensures RiskStake(MaxLossPerTrade, 90.0, 100.0) == Failure(NonPositiveStopDistance)
  {
  }

  /** For a fixed rate, a stop further below it (a wider gap) buys a strictly
      smaller stake. */
  lemma RiskStakeMonotone(budget: real, rate: real, lower: real, higher: real)
    requires budget > 0.0 && rate > 0.0
    requires lower < higher < rate
    ensures RiskStake(budget, rate, lower).Success? && RiskStake(budget, rate, higher).Success?
    ensures RiskStake(budget, rate, lower).value < RiskStake(budget, rate, higher).value
  {
  }

  /** stop_price = current_rate * (1 - -stoploss). */
  function StopPrice(rate: real, stoploss: real): real {
    rate * (1.0 - -stoploss)
  }

  /** Fixed-fraction sizing: risk 2% of the starting balance down to the static
      stoploss. The stake no longer depends on the rate, and the loss at the
      stop is exactly the 2% budget. */
  function FixedFractionStake(startingBalance: real, rate: real, stoploss: real): (r: Result<real, Error>)
    ensures r.Success? <==> rate * -stoploss > 0.0
    ensures r.Failure? ==> r.error == NonPositiveStopDistance
    ensures r.Success? ==> r.value == startingBalance * RiskPerTrade / -stoploss
    ensures r.Success? ==> r.value / rate * (rate - StopPrice(rate, stoploss)) == startingBalance * RiskPerTrade
  {
    var maxMoneyLoss := startingBalance * RiskPerTrade;
    var stop := StopPrice(rate, stoploss);
    assert rate - stop == rate * -stoploss;
    var r := RiskStake(maxMoneyLoss, rate, stop);
    assert r.Success? ==> r.value == maxMoneyLoss / -stoploss by {
      if r.Success? {
        assert r.value * (rate * -stoploss) == maxMoneyLoss * rate;
        assert (r.value * -stoploss) * rate == (maxMoneyLoss) * rate;
        assert r.value * -stoploss == maxMoneyLoss;
      }
    }
    r
  }

  /** With the root strategy's stoploss of -0.10 the stop sits at 90% of the
      rate and, for any positive rate, the stake is a fifth of the starting
      balance; a non-positive rate is refused. */
  lemma RootStakeIsFifthOfBalance(startingBalance: real, rate: real)
    ensures StopPrice(rate, StaticStoploss(RootActionZone)) == 0.9 * rate
    ensures rate > 0.0 ==> FixedFractionStake(startingBalance, rate, StaticStoploss(RootActionZone)) == Success(0.2 * startingBalance)
    ensures rate <= 0.0 ==> FixedFractionStake(startingBalance, rate, StaticStoploss(RootActionZone)).Failure?
  {
  }

  /** `dataframe.iloc[-1]['lowest']`: the stop reference of the last analysed
      candle. */
  function LastLowest(frame: seq<Row>): (r: Result<real, Error>)
    ensures |frame| == 0 ==> r == Failure(EmptyFrame)
    ensures |frame| > 0 ==> (r.Success? <==> frame[|frame| - 1].lowest.Some?)
    ensures |frame| > 0 && r.Failure? ==> r.error == UndefinedStop
    ensures r.Success? ==> |frame| > 0 && frame[|frame| - 1].lowest == Some(r.value)
  {
    if |frame| == 0 then Failure(EmptyFrame)
    else if frame[|frame| - 1].lowest.None? then Failure(UndefinedStop)
    else Success(frame[|frame| - 1].lowest.value)
  }

  /** Fixed-USD-loss sizing: risk `max_loss_per_trade` between the rate and the
      last candle's rolling low. */
  function FixedLossStake(frame: seq<Row>, rate: real): (r: Result<real, Error>)
    ensures |frame| == 0 ==> r == Failure(EmptyFrame)
    ensures |frame| > 0 && frame[|frame| - 1].lowest.None? ==> r == Failure(UndefinedStop)
    ensures |frame| > 0 && frame[|frame| - 1].lowest.Some? ==>
      var low := frame[|frame| - 1].lowest.value;
      && (r.Success? <==> low < rate)
      && (r.Success? ==> r.value * (rate - low) == MaxLossPerTrade * rate)
      && (r.Success? && rate > 0.0 ==> r.value > 0.0 && r.value / rate * (rate - low) == MaxLossPerTrade)
  {
    var low :- LastLowest(frame);
    RiskStake(MaxLossPerTrade, rate, low)
  }

  /** The stake hook of each variant: fixed-fraction for the root strategy,
      fixed-USD-loss from the `lowest` column for the two others. */
  function CustomStakeAmount(v: Variant, startingBalance: real, frame: seq<Row>, rate: real): (r: Result<real, Error>)
    ensures v == RootActionZone && rate > 0.0 ==> r == Success(0.2 * startingBalance)
    ensures v == RootActionZone && rate <= 0.0 ==> r == Failure(NonPositiveStopDistance)
    ensures v != RootActionZone && |frame| == 0 ==> r == Failure(EmptyFrame)
    ensures v != RootActionZone && |frame| > 0 && frame[|frame| - 1].lowest.None? ==> r == Failure(UndefinedStop)
    ensures v != RootActionZone ==>
      (r.Success? <==> |frame| > 0 && frame[|frame| - 1].lowest.Some? && frame[|frame| - 1].lowest.value < rate)
    ensures v != RootActionZone && r.Success? ==>
      && |frame| > 0 && frame[|frame| - 1].lowest.Some?
      && r.value * (rate - frame[|frame| - 1].lowest.value) == MaxLossPerTrade * rate
  {
    match v
    case RootActionZone =>
      RootStakeIsFifthOfBalance(startingBalance, rate);
      FixedFractionStake(startingBalance, rate, StaticStoploss(v))
    case _ => FixedLossStake(frame, rate)
  }

  /** Worked example: entry at 100 with the stop at 90 and a 10 USD budget buys
      one unit for a stake of 100; a stop at the entry rate is refused. */
  lemma SizingExample()
    ensures RiskStake(MaxLossPerTrade, 100.0, 90.0) == Success(100.0)
    ensures RiskStake(MaxLossPerTrade, 100.0, 100.0) == Failure(NonPositiveStopDistance)
  {
  }
}
