/** `get_ticker_indicator` of the multi-timeframe strategy, which reads the
    number in front of the unit letter of the timeframe string
    (`int(self.timeframe[:-1])`), and the overlay column names built from it. */
module Timeframe {
  import opened Wrappers
  import opened Candle

  predicate IsDigit(c: char) {
    '0' <= c <= '9'
  }

  predicate AllDigits(s: string) {
    forall i :: 0 <= i < |s| ==> IsDigit(s[i])
  }

  function DigitValue(c: char): nat
    requires IsDigit(c)
  {
    c as int - '0' as int
  }

  function DigitChar(d: nat): (c: char)
    requires d < 10
    ensures IsDigit(c) && DigitValue(c) == d
  {
    ('0' as int + d) as char
  }

  /** The value of a string of decimal digits, most significant first. */
  function DigitsValue(s: string): nat
    requires AllDigits(s)
  {
    if |s| == 0 then 0 else DigitsValue(s[..|s| - 1]) * 10 + DigitValue(s[|s| - 1])
  }

  /** Python's `str(n)` for a non-negative integer. */
  function Decimal(n: nat): (s: string)
    ensures |s| > 0 && AllDigits(s)
  {
    if n < 10 then [DigitChar(n)] else Decimal(n / 10) + [DigitChar(n % 10)]
  }

  /** Python's `str(n)`. */
  function IntString(n: int): string {
    if n < 0 then "-" + Decimal(-n) else Decimal(n)
  }

  /** Python's `int(s)` on an optional sign followed by one or more ASCII
      digits; anything else raises ValueError. */
  function ParseInt(s: string): Result<int, Error> {
    if |s| > 0 && (s[0] == '+' || s[0] == '-') then
      if |s| > 1 && AllDigits(s[1..]) then
        var magnitude: int := DigitsValue(s[1..]);
        Success(if s[0] == '-' then -magnitude else magnitude)
      else Failure(InvalidTimeframe)
    else if |s| > 0 && AllDigits(s) then Success(DigitsValue(s))
    else Failure(InvalidTimeframe)
  }

  /** Python's `s[:-1]`: everything but the last character ("" stays ""). */
  function DropLast(s: string): string {
    if |s| == 0 then "" else s[..|s| - 1]
  }

  /** `get_ticker_indicator`: the number in front of the unit letter. The unit
      itself is discarded, so "4h" and "4m" both give 4. */
  function TickerValue(timeframe: string): (r: Result<int, Error>)
    ensures |timeframe| <= 1 ==> r == Failure(InvalidTimeframe)
    ensures r.Success? ==> |timeframe| >= 2 && IsDigit(timeframe[|timeframe| - 2])
    ensures r.Failure? ==> r.error == InvalidTimeframe
  {
    ParseInt(DropLast(timeframe))
  }

  /** Reading back the decimal form of n gives n. */
  lemma {:induction false} DigitsValueOfDecimal(n: nat)
    ensures DigitsValue(Decimal(n)) == n
  {
    if n >= 10 {
      DigitsValueOfDecimal(n / 10);
      var s := Decimal(n);
      assert s[..|s| - 1] == Decimal(n / 10);
    }
  }

  /** `int()` inverts `str()`: the decimal form of any integer reads back as
      that integer. */
  lemma ParseIntRoundTrip(n: int)
    ensures ParseInt(IntString(n)) == Success(n)
  {
    var s := IntString(n);
    if n < 0 {
      DigitsValueOfDecimal(-n);
      assert s[1..] == Decimal(-n);
    } else {
      DigitsValueOfDecimal(n);
      assert IsDigit(s[0]);
    }
  }

  /** `get_ticker_indicator` inverts the way a timeframe string is written:
      any integer followed by any unit letter reads back as that integer. */
  lemma TickerValueRoundTrip(n: int, unit: char)
    ensures TickerValue(IntString(n) + [unit]) == Success(n)
  {
    var s := IntString(n);
    assert DropLast(s + [unit]) == s;
    ParseIntRoundTrip(n);
  }

  /** The fixed head of every overlay column name. */
  const OverlayPrefix: string := "resample_"

  /** `'resample_{}_<field>'.format(get_ticker_indicator() * long_period)`. */
  function OverlayColumn(timeframe: string, longPeriod: int, field: string): (r: Result<string, Error>)
    ensures r.Success? <==> TickerValue(timeframe).Success?
    ensures r.Success? ==> |field| < |r.value| && r.value[|r.value| - |field|..] == field
    ensures r.Success? ==>
      && |r.value| >= |OverlayPrefix| + |field| + 1
      && r.value[..|OverlayPrefix|] == OverlayPrefix
      && r.value[|r.value| - |field| - 1] == '_'
      && ParseInt(r.value[|OverlayPrefix|..|r.value| - |field| - 1])
         == Success(TickerValue(timeframe).value * longPeriod)
  {
    var ticker :- TickerValue(timeframe);
    var number := IntString(ticker * longPeriod);
    var name := OverlayPrefix + number + "_" + field;
    assert name[..|OverlayPrefix|] == OverlayPrefix;
    assert name[|OverlayPrefix|..|name| - |field| - 1] == number;
    assert name[|name| - |field|..] == field;
    ParseIntRoundTrip(ticker * longPeriod);
    Success(name)
  }

  /** Different fields of one overlay get different column names. */
  lemma OverlayColumnInjective(timeframe: string, longPeriod: int, a: string, b: string)
    requires OverlayColumn(timeframe, longPeriod, a).Success?
    requires OverlayColumn(timeframe, longPeriod, a) == OverlayColumn(timeframe, longPeriod, b)
    ensures a == b
  {
  }

  /** The multi-timeframe strategy ("4h", long_period 360) resamples to
      4 * 360 = 1440 minutes and reads its overlay from `resample_1440_*`. */
  lemma MultiOverlayColumns()
    ensures TickerValue(MultiTimeframe) == Success(4)
    ensures OverlayColumn(MultiTimeframe, LongPeriod, "fastMA") == Success("resample_1440_fastMA")
    ensures OverlayColumn(MultiTimeframe, LongPeriod, "slowMA") == Success("resample_1440_slowMA")
    ensures OverlayColumn(MultiTimeframe, LongPeriod, "close") == Success("resample_1440_close")
  {
    assert DropLast(MultiTimeframe) == "4";
    assert DigitsValue("4") == 4;
    assert TickerValue(MultiTimeframe) == Success(4);
    assert Decimal(1440) == "1440" by {
      assert Decimal(1) == "1";
      assert Decimal(14) == "14";
      assert Decimal(144) == "144";
    }
    assert IntString(4 * LongPeriod) == "1440";
    assert "resample_" + "1440" + "_" + "fastMA" == "resample_1440_fastMA";
    assert "resample_" + "1440" + "_" + "slowMA" == "resample_1440_slowMA";
    assert "resample_" + "1440" + "_" + "close" == "resample_1440_close";
  }
}
