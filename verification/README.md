# ActionZone strategies — Dafny model

This project models the decision logic of the three ActionZone trading
strategies (plugins for the freqtrade host):

- `ActionZone.py` — single timeframe, writes `buy`/`sell`, sizes each trade so
  that hitting the static 10% stoploss loses 2% of the starting balance;
- `user_data/strategies/ActionZone.py` — single timeframe, writes
  `enter_long`/`exit_long`, sizes each trade so that a fall to the last
  candle's rolling low (`lowest`) loses 10 USD;
- `user_data/strategies/MultiActionZone.py` — the same 10 USD sizing, an
  entry/exit rule that also requires a resampled higher-timeframe overlay to
  agree, a forward fill of the merged frame, and a one-shot custom stoploss at
  the rolling low.

One analysed candle row is the record `Candle.Row`: every float column is an
`Option<real>` where `None` is NaN, and the two signal columns are
`Option<int>` (`None` = never written). The three classes are the tags of
`Candle.Variant`; their class attributes (`stoploss`, `max_loss_per_trade`,
`long_period`, `timeframe`) and the root strategy's local `risk_pre_trade`
factor of `custom_stake_amount` are constants of module `Candle`. Modules:

- `Signals` — the per-row rule (`Fires`) and the populate hooks (`Populate`).
  A comparison with NaN is false, as in pandas, so a missing operand never
  fires a signal. Entry writes 1 into `buy`/`enter_long` on matching rows and
  leaves every other cell alone; exit does the same for `sell`/`exit_long`.
- `Fill` — `fillna(method='ffill')` of the merged frame, per column (`FFill`)
  and for the whole frame (`FillFrame`), against the reference definition
  `LastDefined` (nearest defined value at or above).
- `Sizing` — both stake formulas built on one `RiskStake` (budget divided by
  the stop distance, priced at the rate).
- `Stoploss` — `custom_stoploss` with times as integer seconds.
- `Timeframe` — `int(timeframe[:-1])` and the `resample_<N>_<field>` names.

Division hazards are results, not infinities: a stop at or above the rate is
`NonPositiveStopDistance`, a zero rate in the stoploss is `ZeroRate`, a NaN
`lowest` is `UndefinedStop`, and `iloc[-1]` on an empty frame is `EmptyFrame`.
The Python code has no such guards: it would raise IndexError on an empty
frame, raise ZeroDivisionError in the root strategy's stake hook for a zero
rate (every operand there is a plain Python float), and otherwise produce inf,
NaN or a negative stake.

The unit letter of the timeframe is dropped by `get_ticker_indicator`, so the
multi-timeframe strategy (`'4h'`, `long_period = 360`) resamples to
4 × 360 = 1440 minutes, i.e. one day, and reads the overlay from the
`resample_1440_*` columns (`Timeframe.MultiOverlayColumns`).

## Model

| member | source | states |
|---|---|---|
| Signals.SingleEntryIff | ActionZone.py:175-181 | the rule `Signals.Fires` behind the populate masks: buy fires iff fastMA, slowMA, close and volume are all defined and fastMA > slowMA, close > fastMA, volume > 0 |
| Signals.SingleExitIff | ActionZone.py:192-198 | sell fires iff all four are defined and fastMA < slowMA, close < fastMA, volume > 0 |
| Signals.TieOrIdleFiresNeither | ActionZone.py:175-198 | fastMA == slowMA, close == fastMA or a non-positive volume sets neither signal (strict inequalities only) |
| Signals.RootAndUserAgree | user_data/strategies/ActionZone.py:133-156 | the enter_long/exit_long rule classifies every row exactly as the buy/sell rule of the root strategy |
| Signals.SignalsExclusive | user_data/strategies/ActionZone.py:135-153 | for every variant, no row fires both the entry and the exit rule |
| Signals.MirrorSwapsSignals | user_data/strategies/ActionZone.py:150-156 | negating every compared price turns entries into exits and exits into entries: exit is the strict mirror of entry |
| Signals.Populate | user_data/strategies/ActionZone.py:133-141 | the hook keeps the frame length, sets the signal cell to 1 on exactly the rows where the rule fires, keeps it on all other rows, and changes no other column |
| Signals.MultiEntryIff | user_data/strategies/MultiActionZone.py:185-193 | multi-timeframe buy fires iff the overlay fast > overlay slow, overlay close > overlay fast, fast > slow, close > fast and volume > 0, all defined on the same row |
| Signals.MultiExitIff | user_data/strategies/MultiActionZone.py:204-212 | multi-timeframe sell fires iff the five mirrored strict conjuncts hold on the same row |
| Signals.MultiRefinesSingle | user_data/strategies/MultiActionZone.py:189-191 | every row on which the multi-timeframe rule fires also fires the single-timeframe rule |
| Signals.MultiRefinementIsStrict | user_data/strategies/MultiActionZone.py:187-188 | some row fires the single-timeframe entry but not the multi-timeframe one (overlay not yet defined) |
| Signals.MissingOperandFiresNeither | user_data/strategies/MultiActionZone.py:185-212 | a NaN in any column the variant's rule reads sets neither signal |
| Signals.PopulateBothExclusive | user_data/strategies/MultiActionZone.py:177-213 | running the buy then the sell hook on a fresh frame marks buy iff the entry rule fires, sell iff the exit rule fires, and never both on one row |
| Fill.FFill | user_data/strategies/MultiActionZone.py:173 | forward fill keeps the column length and puts at each index the nearest defined value at or above it |
| Fill.FFillIsNearestEarlier | user_data/strategies/MultiActionZone.py:173 | every defined value is kept; an entry stays missing iff everything above it is missing; otherwise it equals an earlier defined entry with only gaps in between |
| Fill.FFillIdempotent | user_data/strategies/MultiActionZone.py:173 | filling twice equals filling once |
| Fill.FillFrame | user_data/strategies/MultiActionZone.py:172-173 | every numeric column of the filled frame is the forward fill of the same column of the merged frame; signal cells pass through |
| Fill.FillFrameIdempotent | user_data/strategies/MultiActionZone.py:172-173 | filling the merged frame twice equals filling it once |
| Sizing.RiskStake | user_data/strategies/ActionZone.py:95-99 | defined iff the stop is below the rate; then stake × (rate − stop) = budget × rate, the loss on stake/rate units from rate to stop is the budget, and the stake is positive for a positive rate and budget |
| Sizing.RiskStakeMonotone | user_data/strategies/ActionZone.py:96-97 | for a fixed positive rate, a lower stop (wider gap) gives a strictly smaller stake |
| Sizing.CustomStakeAmount | user_data/strategies/ActionZone.py:91-99 | per variant: the root strategy stakes 0.2 × starting balance for any positive rate; the others fail on an empty frame or a NaN `lowest`, succeed iff the last `lowest` is below the rate, and then stake so that a fall to it loses max_loss_per_trade |
| Sizing.FixedFractionStake | ActionZone.py:113-126 | defined iff rate × −stoploss > 0; the stake, computed through the stop price `Sizing.StopPrice` = rate × (1 − −stoploss), is 2% of the starting balance divided by −stoploss, independent of the rate, and the loss from rate to the stop price is exactly 2% of the balance |
| Sizing.RootStakeIsFifthOfBalance | ActionZone.py:114-118 | with stoploss −0.10 the stop price is 0.9 × rate and the stake is 0.2 × starting balance for every positive rate |
| Sizing.LastLowest | user_data/strategies/MultiActionZone.py:116-119 | the stop reference is the `lowest` cell of the last row; empty frame and NaN are distinct errors |
| Sizing.FixedLossStake | user_data/strategies/MultiActionZone.py:115-123 | defined iff the frame has a last row with a defined `lowest` below the rate; then stake × (rate − lowest) = 10 × rate, positive for a positive rate, and stake/rate units lose exactly 10 USD at the stop |
| Sizing.SizingExample | user_data/strategies/MultiActionZone.py:119-121 | rate 100, stop 90, 10 USD gives a stake of 100; rate 100, stop 100 is refused |
| Sizing.UnguardedStake | user_data/strategies/ActionZone.py:95-97 | the source's unguarded formula: stake × (rate − stop) = budget × rate for any rate ≠ stop, including rates below the stop |
| Stoploss.CustomStoploss | user_data/strategies/MultiActionZone.py:102-113 | for zero profit within a minute of opening, returns the fraction r with rate × (1 + r) = lowest (errors for NaN lowest or zero rate); in every other case returns the sentinel 1; an empty frame fails in both branches |
| Stoploss.InitialStopBounds | user_data/strategies/MultiActionZone.py:109-113 | for 0 < lowest < rate the initial stop lies strictly between the static stoploss −1.00 and 0, and the sentinel 1 is above both |
| Stoploss.LaterTicksKeepStop | user_data/strategies/MultiActionZone.py:109-113 | from one minute after the open onward the hook answers the sentinel for any profit, rate and candle |
| Timeframe.ParseIntRoundTrip | user_data/strategies/MultiActionZone.py:139 | `Timeframe.ParseInt`, the model of `int()`, reads the decimal form str(n) of every integer n back as n |
| Timeframe.TickerValue | user_data/strategies/MultiActionZone.py:138-139 | a timeframe of length ≤ 1 is refused; a success needs a digit right before the unit letter |
| Timeframe.TickerValueRoundTrip | user_data/strategies/MultiActionZone.py:138-139 | for every integer n and unit letter u, parsing str(n) + u gives back n |
| Timeframe.OverlayColumn | user_data/strategies/MultiActionZone.py:187-188 | the overlay column name exists iff the timeframe parses; it starts with "resample_", ends with "_" and the requested field name, and the text between reads back through `int()` as ticker value × long_period |
| Timeframe.OverlayColumnInjective | user_data/strategies/MultiActionZone.py:187-188 | two fields of the same overlay never share a column name |
| Timeframe.MultiOverlayColumns | user_data/strategies/MultiActionZone.py:164 | "4h" gives 4, and with long_period 360 the overlay columns are resample_1440_fastMA, resample_1440_slowMA and resample_1440_close |

## Left out

- EMA (`ta.EMA`), rolling minimum (`ta.MIN`), `resample_to_interval` and `resampled_merge`: library code that is not part of this model; `fastMA`, `slowMA`, `lowest` and the overlay columns are given inputs of each row.
- `self.dp.get_analyzed_dataframe`, `self.wallets.get_starting_balance` and the `Trade` object: host state; the analysed frame, the starting balance and the trade's open time are parameters.
- `minimal_roi`, `order_types`, `order_time_in_force`, `plot_config`, `informative_pairs`, `startup_candle_count`, `trailing_stop` and the other class settings: host configuration with no behaviour in the strategy's own code.
- The unused hook arguments (`proposed_stake`, `min_stake`, `max_stake`, `current_time` of the stake hook): the source never reads them.
- IEEE floats: values are exact reals, NaN is `None`, and rounding is not modelled.
- Datetimes: times are integer seconds, so `current_time - timedelta(minutes=1) < open_date_utc` is `now - 60 < openTime`.
- Open, high, low and date columns: the forward fill also fills them in pandas; the rules never read them, so `Row` does not carry them.
- Signal cell values: pandas stores the written 1 as a float in a NaN-filled column; the model keeps an `Option<int>`.
- Sizing.FixedFractionStake: refuses a non-positive rate, where the Python code (the rate cancels out) would still return 0.2 × balance for a negative rate.
- Sizing.RiskStake: refuses a stop at or above the rate, where the Python code raises ZeroDivisionError (root strategy, zero distance) or returns inf, NaN or a negative stake (see Findings).
- Stoploss.CustomStoploss: a NaN `lowest` or a zero rate in the initial branch is an error; the Python code returns NaN or inf.
- Timeframe.TickerValue: Python's `int()` also accepts surrounding whitespace, underscores between digits and non-ASCII digits; the model accepts only an optional sign and ASCII digits and refuses the rest.

## Findings

| source | as written | input that shows it | evidently intended | confidence | as-written member | corrected member |
|---|---|---|---|---|---|---|
| user_data/strategies/ActionZone.py:95-97 | `volume_for_buy = max_loss_per_trade / (current_rate - stop_price)` with no guard | current_rate 90 below a `lowest` of 100 gives a stake of −90 (and current_rate = lowest divides by zero) | refuse to size a trade whose stop is not below the entry rate | medium, not executed | Sizing.UnguardedStake, Sizing.UnguardedStakeGoesNegative | Sizing.RiskStake |
