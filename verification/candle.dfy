/** The data the three ActionZone strategies see: one analysed candle row with
    its indicator columns, the strategy variants and their class constants. */
module Candle {
  import opened Wrappers

  /** The three strategy classes of the repository. They share one signal rule
      and differ in the overlay, the stake formula and the stoploss. */
  datatype Variant =
    | RootActionZone    // ActionZone.py: buy/sell columns, fixed-fraction stake
    | UserActionZone    // user_data/strategies/ActionZone.py: enter_long/exit_long, fixed-USD-loss stake
    | MultiActionZone   // user_data/strategies/MultiActionZone.py: adds a resampled overlay and a custom stoploss

  /** One row of the analysed data frame. Numeric columns are Option<real>:
      None is NaN (indicator warm-up, or a gap before the first overlay bucket).
      `htfClose`, `htfFast` and `htfSlow` are the `resample_<N>_close`,
      `resample_<N>_fastMA` and `resample_<N>_slowMA` overlay columns.
      `entry` is the `buy` (or `enter_long`) column, `exit` the `sell` (or
      `exit_long`) column; None there means the cell was never written. */
  datatype Row = Row(
    close: Option<real>,
    volume: Option<real>,
    fastMA: Option<real>,
    slowMA: Option<real>,
    lowest: Option<real>,
    htfClose: Option<real>,
    htfFast: Option<real>,
    htfSlow: Option<real>,
    entry: Option<int>,
    exit: Option<int>)

  /** The numeric (float) columns of a row. */
  datatype Field = Close | Volume | FastMA | SlowMA | Lowest | HtfClose | HtfFast | HtfSlow

  function Get(row: Row, f: Field): Option<real> {
    match f
    case Close => row.close
    case Volume => row.volume
    case FastMA => row.fastMA
    case SlowMA => row.slowMA
    case Lowest => row.lowest
    case HtfClose => row.htfClose
    case HtfFast => row.htfFast
    case HtfSlow => row.htfSlow
  }

  /** One numeric column of a frame, top to bottom. */
  function Column(frame: seq<Row>, f: Field): (col: seq<Option<real>>)
    ensures |col| == |frame|
    ensures forall i :: 0 <= i < |frame| ==> col[i] == Get(frame[i], f)
  {
    seq(|frame|, i requires 0 <= i < |frame| => Get(frame[i], f))
  }

  /** The two signal columns a strategy writes. */
  datatype Side = Entry | Exit

  function Signal(row: Row, side: Side): Option<int> {
    match side
    case Entry => row.entry
    case Exit => row.exit
  }

  /** The value the strategies write into a signal column when the rule fires. */
  const Fired: int := 1

  /** Errors where the Python code raises or returns inf/NaN. */
  datatype Error =
    | EmptyFrame               // dataframe.iloc[-1] on an empty frame
    | UndefinedStop            // the last candle's `lowest` is NaN
    | NonPositiveStopDistance  // current_rate - stop_price <= 0
    | ZeroRate                 // division by current_rate == 0
    | InvalidTimeframe         // int(timeframe[:-1]) raises ValueError

  /** `stoploss` class attribute of each variant. */
  function StaticStoploss(v: Variant): real {
    match v
    case RootActionZone => -0.10
    case UserActionZone => -1.0
    case MultiActionZone => -1.0
  }

  /** `risk_pre_trade` of the fixed-fraction sizing. */
  const RiskPerTrade: real := 0.02

  /** `max_loss_per_trade` (USD) of the fixed-loss sizing. */
  const MaxLossPerTrade: real := 10.0

  /** `long_period` and `timeframe` of the multi-timeframe variant. */
  const LongPeriod: int := 360
  const MultiTimeframe: string := "4h"

  /** One minute, in the integer seconds the model uses for times. */
  const OneMinute: int := 60
}
