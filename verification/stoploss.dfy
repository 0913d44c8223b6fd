/** `custom_stoploss` of the multi-timeframe strategy: a one-shot initial stop
    at the last candle's rolling low, expressed relative to the current rate,
    and afterwards a sentinel that leaves the host's active stop in place. */
module Stoploss {
  import opened Wrappers
  import opened Candle

  /** The sentinel returned after the first minute: larger than any stop the
      strategy ever sets, so the host keeps the stop it already has. */
  const KeepStop: real := 1.0

  /** The hook. Times are integer seconds; the order counts as new while its
      profit is exactly zero and less than a minute has passed since it opened.
      The last candle is fetched before the test, so an empty frame fails in
      both branches, while a NaN `lowest` or a zero rate only matters when the
      initial stop is computed. */
  function CustomStoploss(frame: seq<Row>, openTime: int, now: int, rate: real, profit: real): (r: Result<real, Error>)
    ensures |frame| == 0 ==> r == Failure(EmptyFrame)
    ensures |frame| > 0 && !(profit == 0.0 && now - OneMinute < openTime) ==> r == Success(KeepStop)
    ensures |frame| > 0 && profit == 0.0 && now - OneMinute < openTime ==>
      var low := frame[|frame| - 1].lowest;
      && (low.None? ==> r == Failure(UndefinedStop))
      && (low.Some? && rate == 0.0 ==> r == Failure(ZeroRate))
      && (low.Some? && rate != 0.0 ==> r.Success? && rate * (1.0 + r.value) == low.value)
  {
    if |frame| == 0 then Failure(EmptyFrame)
    else
      var stoplossPrice := frame[|frame| - 1].lowest;
      if profit == 0.0 && now - OneMinute < openTime then
        if stoplossPrice.None? then Failure(UndefinedStop)
        else if rate == 0.0 then Failure(ZeroRate)
        else Success(stoplossPrice.value / rate - 1.0)
      else Success(KeepStop)
  }

  /** With the rolling low strictly between 0 and the rate, the initial stop is a
      loss fraction strictly inside (-1, 0): tighter than the static stoploss of
      -1.00, and below the sentinel, so the sentinel never loosens it. */
  lemma InitialStopBounds(frame: seq<Row>, openTime: int, now: int, rate: real)
    requires |frame| > 0 && frame[|frame| - 1].lowest.Some?
    requires 0.0 < frame[|frame| - 1].lowest.value < rate
    requires now - OneMinute < openTime
    ensures var r := CustomStoploss(frame, openTime, now, rate, 0.0);
      && r.Success?
      && StaticStoploss(MultiActionZone) < r.value < 0.0
      && r.value < KeepStop
      && StaticStoploss(MultiActionZone) < KeepStop
  {
  }

  /** Once the first minute has passed, or the trade has moved, the hook always
      answers the sentinel, whatever the candle and the rate. */
  lemma LaterTicksKeepStop(frame: seq<Row>, openTime: int, rate: real, profit: real, laterNow: int)
    requires |frame| > 0
    requires laterNow >= openTime + OneMinute
    ensures CustomStoploss(frame, openTime, laterNow, rate, profit) == Success(KeepStop)
  {
  }
}
