/** Market snapshot assembly: symbol normalisation, the intraday and
    longer-term indicator series, price-change percentages, and the
    bracketed list rendering used by the report. */
module Market {
  import opened Wrappers
  import opened Text
  import opened MarketTypes
  import opened Indicators

  // ---------------------------------------------------------------------
  // Symbols
  // ---------------------------------------------------------------------

  const Quote: string := "USDT"

  /** `normalize`: upper-case, then append the quote asset unless the
      symbol already ends with it. */
  function Normalize(symbol: string): (r: string)
    ensures EndsWith(r, Quote)
    ensures NoLower(r)
    ensures |symbol| <= |r| && r[..|symbol|] == ToUpper(symbol)
    ensures |r| == |symbol| <==> EndsWith(ToUpper(symbol), Quote)
    ensures |r| != |symbol| ==> |r| == |symbol| + |Quote|
  {
    var upper := ToUpper(symbol);
    ToUpperIdempotent(symbol);
    if EndsWith(upper, Quote) then upper
    else
      var r := upper + Quote;
      assert r[|r| - |Quote|..] == Quote;
      r
  }

  /** Normalising a normalised symbol changes nothing. */
  lemma NormalizeIdempotent(symbol: string)
    ensures Normalize(Normalize(symbol)) == Normalize(symbol)
  {
    var r := Normalize(symbol);
    assert ToUpper(r) == r;
  }

  // ---------------------------------------------------------------------
  // Bracketed lists
  // ---------------------------------------------------------------------

  function MapStrings(values: seq<real>, fmt: real -> string): (parts: seq<string>)
    ensures |parts| == |values|
    ensures forall i :: 0 <= i < |values| ==> parts[i] == fmt(values[i])
  {
    seq(|values|, i requires 0 <= i < |values| => fmt(values[i]))
  }

  /** `format_float_slice`: each value through the number formatter `fmt`
      (`{:.3}` in the system), joined by ", " inside square brackets. */
  function FormatFloatSlice(values: seq<real>, fmt: real -> string): (r: string)
    ensures 2 <= |r| && r[0] == '[' && r[|r| - 1] == ']'
    ensures |values| == 0 ==> r == "[]"
  {
    "[" + JoinComma(MapStrings(values, fmt)) + "]"
  }

  /** Reads a bracketed ", "-separated list back into its parts. */
  function ParseBracketList(s: string): Option<seq<string>>
  {
    if 2 <= |s| && s[0] == '[' && s[|s| - 1] == ']' then
      var inner := s[1..|s| - 1];
      if inner == "" then Some([]) else Some(SplitComma(inner))
    else None
  }

  /** The rendering can be read back into the formatted numbers whenever
      each formatted number is non-empty and free of commas. */
  lemma FormatFloatSliceRoundTrip(values: seq<real>, fmt: real -> string)
    requires forall i :: 0 <= i < |values| ==> fmt(values[i]) != "" && CommaFree(fmt(values[i]))
    ensures ParseBracketList(FormatFloatSlice(values, fmt)) == Some(MapStrings(values, fmt))
  {
    var parts := MapStrings(values, fmt);
    var joined := JoinComma(parts);
    var s := FormatFloatSlice(values, fmt);
    assert s[1..|s| - 1] == joined;
    if |parts| > 0 {
      assert |parts[0]| > 0;
      JoinNonEmpty(parts);
      SplitJoinComma(parts);
    }
  }

  lemma JoinNonEmpty(parts: seq<string>)
    requires 1 <= |parts| && parts[0] != ""
    ensures JoinComma(parts) != ""
  {
    assert JoinComma(parts)[..|parts[0]|] == parts[0];
  }

  // ---------------------------------------------------------------------
  // Trailing indicator series
  // ---------------------------------------------------------------------

  /** First index of the trailing window of at most ten candles
      (`len.saturating_sub(10)`). */
  function WindowStart(total: nat): nat
  {
    if total >= 10 then total - 10 else 0
  }

  /** The indicators that are tracked over growing prefixes. */
  datatype Indicator = Ema20 | MacdLine | Rsi7 | Rsi14

  /** Shortest prefix for which the series records a value:
      `len >= 20`, `len >= 26`, `len > 7`, `len > 14`. */
  function MinLength(ind: Indicator): nat
  {
    match ind
    case Ema20 => 20
    case MacdLine => 26
    case Rsi7 => 8
    case Rsi14 => 15
  }

  function Evaluate(ind: Indicator, ks: seq<Kline>): real
  {
    match ind
    case Ema20 => Ema(ks, 20)
    case MacdLine => Macd(ks)
    case Rsi7 => Rsi(ks, 7)
    case Rsi14 => Rsi(ks, 14)
  }

  function MaxNat(a: nat, b: nat): nat { if a >= b then a else b }

  /** Length of the shortest prefix of `ks` that contributes to `ind`'s
      trailing series. */
  function FirstLength(ks: seq<Kline>, ind: Indicator): nat
  {
    MaxNat(WindowStart(|ks|) + 1, MinLength(ind))
  }

  /** One value of `ind` per prefix `ks[..len]` of the trailing window with
      `len <= upto` that is long enough for the indicator, shortest first. */
  function Trailing(ks: seq<Kline>, ind: Indicator, upto: nat): (s: seq<real>)
    requires upto <= |ks|
  {
    var lo := FirstLength(ks, ind);
    if upto < lo then []
    else seq(upto - lo + 1, k requires 0 <= k < upto - lo + 1 => Evaluate(ind, ks[..lo + k]))
  }

  /** Admitting one more prefix adds its value exactly when it is long
      enough. */
  lemma TrailingStep(ks: seq<Kline>, ind: Indicator, i: nat)
    requires WindowStart(|ks|) <= i < |ks|
    ensures Trailing(ks, ind, i + 1) ==
      Trailing(ks, ind, i) + (if i + 1 >= MinLength(ind) then [Evaluate(ind, ks[..i + 1])] else [])
  {
  }

  /** A trailing series holds one entry per long-enough prefix among the
      last ten, so it is never longer than ten. */
  lemma TrailingLength(ks: seq<Kline>, ind: Indicator)
    ensures |ks| < MinLength(ind) ==> |Trailing(ks, ind, |ks|)| == 0
    ensures MinLength(ind) <= |ks| ==>
      |Trailing(ks, ind, |ks|)| == (if |ks| - MinLength(ind) + 1 < 10 then |ks| - MinLength(ind) + 1 else 10)
  {
  }

  /** The last entry of a non-empty trailing series is the indicator over
      the whole sequence. */
  lemma TrailingEndsWithWhole(ks: seq<Kline>, ind: Indicator)
    requires |Trailing(ks, ind, |ks|)| > 0
    ensures Trailing(ks, ind, |ks|)[|Trailing(ks, ind, |ks|)| - 1] == Evaluate(ind, ks)
  {
    var s := Trailing(ks, ind, |ks|);
    var lo := FirstLength(ks, ind);
    assert ks[..lo + (|s| - 1)] == ks;
  }

  /** `xs` with `x` pushed when `cond` holds. */
  function PushIf(xs: seq<real>, cond: bool, x: real): seq<real>
  {
    if cond then xs + [x] else xs
  }

  /** What `calculate_intraday_series` produces for `ks`. */
  predicate IsIntradayOf(ks: seq<Kline>, d: IntradayData)
  {
    && d.midPrices == Closes(ks)[WindowStart(|ks|)..]
    && d.ema20Values == Trailing(ks, Ema20, |ks|)
    && d.macdValues == Trailing(ks, MacdLine, |ks|)
    && d.rsi7Values == Trailing(ks, Rsi7, |ks|)
    && d.rsi14Values == Trailing(ks, Rsi14, |ks|)
  }

  /** The intraday series after the prefixes shorter than `i + 1` of the
      trailing window have been visited. */
  predicate IntradayUpTo(ks: seq<Kline>, d: IntradayData, i: nat)
    requires WindowStart(|ks|) <= i <= |ks|
  {
    && d.midPrices == Closes(ks)[WindowStart(|ks|)..i]
    && d.ema20Values == Trailing(ks, Ema20, i)
    && d.macdValues == Trailing(ks, MacdLine, i)
    && d.rsi7Values == Trailing(ks, Rsi7, i)
    && d.rsi14Values == Trailing(ks, Rsi14, i)
  }

  /** One visit of the prefix `ks[..i + 1]`: its close is a mid price and
      each indicator long enough for it is appended. */
  function IntradayVisit(ks: seq<Kline>, d: IntradayData, i: nat): IntradayData
    requires i < |ks|
  {
    var slice := ks[..i + 1];
    IntradayData(
      d.midPrices + [slice[|slice| - 1].close],
      PushIf(d.ema20Values, |slice| >= 20, Ema(slice, 20)),
      PushIf(d.macdValues, |slice| >= 26, Macd(slice)),
      PushIf(d.rsi7Values, |slice| > 7, Rsi(slice, 7)),
      PushIf(d.rsi14Values, |slice| > 14, Rsi(slice, 14)))
  }

  lemma IntradayVisitStep(ks: seq<Kline>, d: IntradayData, i: nat)
    requires WindowStart(|ks|) <= i < |ks|
    requires IntradayUpTo(ks, d, i)
    ensures IntradayUpTo(ks, IntradayVisit(ks, d, i), i + 1)
  {
    var v := IntradayVisit(ks, d, i);
    TrailingPush(ks, Ema20, i, d.ema20Values);
    TrailingPush(ks, MacdLine, i, d.macdValues);
    TrailingPush(ks, Rsi7, i, d.rsi7Values);
    TrailingPush(ks, Rsi14, i, d.rsi14Values);
    var start := WindowStart(|ks|);
    assert Closes(ks)[start..i + 1] == Closes(ks)[start..i] + [ks[..i + 1][i].close];
  }

  /** `TrailingStep` in the shape one visit uses. */
  lemma TrailingPush(ks: seq<Kline>, ind: Indicator, i: nat, xs: seq<real>)
    requires WindowStart(|ks|) <= i < |ks|
    requires xs == Trailing(ks, ind, i)
    ensures PushIf(xs, i + 1 >= MinLength(ind), Evaluate(ind, ks[..i + 1])) == Trailing(ks, ind, i + 1)
  {
    TrailingStep(ks, ind, i);
  }

  /** `calculate_intraday_series`: re-runs the indicators on every prefix
      ending in the last ten candles. */
  method CalculateIntradaySeries(ks: seq<Kline>) returns (d: IntradayData)
    ensures IsIntradayOf(ks, d)
    ensures |ks| == 0 ==> d == DefaultIntraday()
    ensures |d.midPrices| == (if |ks| < 10 then |ks| else 10)
  {
    d := DefaultIntraday();
    var total := |ks|;
    if total == 0 {
      return;
    }
    var start := WindowStart(total);
    var i := start;
    IntradayStart(ks);
    while i < total
      invariant start <= i <= total
      invariant IntradayUpTo(ks, d, i)
    {
      IntradayVisitStep(ks, d, i);
      d := IntradayVisit(ks, d, i);
      i := i + 1;
    }
    IntradayDone(ks, d);
  }

  /** Before the first visit nothing has been recorded. */
  lemma IntradayStart(ks: seq<Kline>)
    requires |ks| > 0
    ensures IntradayUpTo(ks, DefaultIntraday(), WindowStart(|ks|))
  {
    assert Closes(ks)[WindowStart(|ks|)..WindowStart(|ks|)] == [];
  }

  /** After the last visit the series are complete. */
  lemma IntradayDone(ks: seq<Kline>, d: IntradayData)
    requires IntradayUpTo(ks, d, |ks|)
    ensures IsIntradayOf(ks, d)
    ensures |d.midPrices| == (if |ks| < 10 then |ks| else 10)
  {
  }

  function Volumes(ks: seq<Kline>): (v: seq<real>)
    ensures |v| == |ks|
  {
    seq(|ks|, i requires 0 <= i < |ks| => ks[i].volume)
  }

  /** What `calculate_longer_term_data` produces for a non-empty `ks`. */
  predicate IsLongerTermOf(ks: seq<Kline>, d: LongerTermData)
  {
    && d.ema20 == Ema(ks, 20)
    && d.ema50 == Ema(ks, 50)
    && d.atr3 == Atr(ks, 3)
    && d.atr14 == Atr(ks, 14)
    && (|ks| == 0 ==> d.currentVolume == 0.0 && d.averageVolume == 0.0)
    && (|ks| > 0 ==> d.currentVolume == ks[|ks| - 1].volume)
    && d.averageVolume * |ks| as real == Sum(Volumes(ks))
    && d.macdValues == Trailing(ks, MacdLine, |ks|)
    && d.rsi14Values == Trailing(ks, Rsi14, |ks|)
  }

  /** `calculate_longer_term_data`. */
  method CalculateLongerTermData(ks: seq<Kline>) returns (d: LongerTermData)
    ensures IsLongerTermOf(ks, d)
    ensures |ks| == 0 ==> d == DefaultLongerTerm()
  {
    d := DefaultLongerTerm();
    var total := |ks|;
    if total == 0 {
      return;
    }
    var volumeSum := Sum(Volumes(ks));
    var average := volumeSum / total as real;
    MeanTimesCount(volumeSum, total as real);
    var start := WindowStart(total);
    var macd, rsi14 := d.macdValues, d.rsi14Values;
    var i := start;
    while i < total
      invariant start <= i <= total
      invariant macd == Trailing(ks, MacdLine, i)
      invariant rsi14 == Trailing(ks, Rsi14, i)
    {
      var slice := ks[..i + 1];
      TrailingStep(ks, MacdLine, i);
      TrailingStep(ks, Rsi14, i);
      macd := PushIf(macd, |slice| >= 26, Macd(slice));
      rsi14 := PushIf(rsi14, |slice| > 14, Rsi(slice, 14));
      i := i + 1;
    }
    d := LongerTermData(Ema(ks, 20), Ema(ks, 50), Atr(ks, 3), Atr(ks, 14),
                        ks[total - 1].volume, average, macd, rsi14);
  }

  lemma MeanTimesCount(sum: real, n: real)
    requires n > 0.0
    ensures sum / n * n == sum
  {
  }

  /** The average volume lies between the smallest and the largest volume. */
  lemma AverageVolumeWithin(ks: seq<Kline>, d: LongerTermData, lo: real, hi: real)
    requires IsLongerTermOf(ks, d)
    requires 1 <= |ks|
    requires forall i :: 0 <= i < |ks| ==> lo <= ks[i].volume <= hi
    ensures lo <= d.averageVolume <= hi
  {
    MeanVolumeWithin(ks, d.averageVolume, lo, hi);
  }

  lemma MeanVolumeWithin(ks: seq<Kline>, avg: real, lo: real, hi: real)
    requires 1 <= |ks|
    requires avg * |ks| as real == Sum(Volumes(ks))
    requires forall i :: 0 <= i < |ks| ==> lo <= ks[i].volume <= hi
    ensures lo <= avg <= hi
  {
    var v := Volumes(ks);
    var n := |ks| as real;
    assert AllWithin(v, lo, hi);
    SumWithin(v, lo, hi);
    assert (avg - lo) * n >= 0.0;
    assert (hi - avg) * n >= 0.0;
    FactorSign(avg - lo, n);
    FactorSign(hi - avg, n);
  }

  // ---------------------------------------------------------------------
  // Snapshot
  // ---------------------------------------------------------------------

  datatype MarketError = InsufficientData(message: string)

  const NoCurrentPrice: string := "Could not get current price from 3m klines."

  /** Percentage move from `reference` to `current`. */
  function PercentChange(current: real, reference: real): real
    requires reference != 0.0
  {
    (current - reference) / reference * 100.0
  }

  /** Change against the close `back` candles from the end, or 0 when the
      series is too short or that close is not positive. */
  function PriceChange(current: real, ks: seq<Kline>, back: nat): (r: real)
    requires 1 <= back
    ensures |ks| < back ==> r == 0.0
    ensures back <= |ks| && ks[|ks| - back].close <= 0.0 ==> r == 0.0
    ensures back <= |ks| && ks[|ks| - back].close > 0.0 ==> ks[|ks| - back].close * (1.0 + r / 100.0) == current
  {
    if |ks| >= back then
      var reference := ks[|ks| - back].close;
      if reference > 0.0 then PercentChange(current, reference) else 0.0
    else 0.0
  }

  /** A percentage change applied to its reference gives back the current
      price, and it is positive exactly when the price rose. */
  lemma PercentChangeInverse(current: real, reference: real)
    requires 0.0 < reference
    ensures reference * (1.0 + PercentChange(current, reference) / 100.0) == current
    ensures PercentChange(current, reference) > 0.0 <==> current > reference
  {
    var q := (current - reference) / reference;
    assert q * reference == current - reference;
    if current > reference {
      FactorPositive(q, reference);
    } else {
      assert (-q) * reference >= 0.0;
      FactorSign(-q, reference);
    }
  }

  /** The close that gives the current price: the last 3-minute close. */
  function LastClose(ks: seq<Kline>): real
  {
    if |ks| == 0 then 0.0 else ks[|ks| - 1].close
  }

  /** The pure part of `get`: assembles a snapshot from the four fetched
      values. The source unwraps the funding rate after the price check,
      so an absent rate is only allowed where the price check fails. */
  method AssembleSnapshot(
    symbol: string, klines3m: seq<Kline>, klines4h: seq<Kline>,
    openInterest: Option<OIData>, fundingRate: Option<real>)
    returns (r: Result<Data, MarketError>)
    requires fundingRate.Some? || LastClose(klines3m) == 0.0
    ensures r.Err? <==> LastClose(klines3m) == 0.0
    ensures r.Err? ==> r.error == InsufficientData(NoCurrentPrice)
    ensures r.Ok? ==>
      && r.value.symbol == Normalize(symbol)
      && r.value.currentPrice == klines3m[|klines3m| - 1].close != 0.0
      && r.value.currentEma20 == Ema(klines3m, 20)
      && r.value.currentMacd == Macd(klines3m)
      && r.value.currentRsi7 == Rsi(klines3m, 7)
      && r.value.priceChange1h == PriceChange(r.value.currentPrice, klines3m, 21)
      && r.value.priceChange4h == PriceChange(r.value.currentPrice, klines4h, 2)
      && r.value.openInterest == openInterest
      && r.value.fundingRate == fundingRate.value
      && r.value.intradaySeries.Some? && IsIntradayOf(klines3m, r.value.intradaySeries.value)
      && r.value.longerTermContext.Some? && IsLongerTermOf(klines4h, r.value.longerTermContext.value)
  {
    var sym := Normalize(symbol);
    var currentPrice := LastClose(klines3m);
    if currentPrice == 0.0 {
      return Err(InsufficientData(NoCurrentPrice));
    }
    var ema20 := Ema(klines3m, 20);
    var macd := Macd(klines3m);
    var rsi7 := Rsi(klines3m, 7);
    var change1h := PriceChange(currentPrice, klines3m, 21);
    var change4h := PriceChange(currentPrice, klines4h, 2);
    var intraday := CalculateIntradaySeries(klines3m);
    var longer := CalculateLongerTermData(klines4h);
    r := Ok(Data(sym, currentPrice, change1h, change4h, ema20, macd, rsi7,
                 openInterest, fundingRate.value, Some(intraday), Some(longer)));
  }

  /** In an assembled snapshot the current EMA20, MACD and RSI7 are the
      last entries of their intraday series whenever those are non-empty,
      and every intraday RSI value lies in [0, 100]. */
  lemma SnapshotAgreesWithSeries(ks: seq<Kline>, d: IntradayData)
    requires IsIntradayOf(ks, d)
    ensures |d.ema20Values| > 0 ==> d.ema20Values[|d.ema20Values| - 1] == Ema(ks, 20)
    ensures |d.macdValues| > 0 ==> d.macdValues[|d.macdValues| - 1] == Macd(ks)
    ensures |d.rsi7Values| > 0 ==> d.rsi7Values[|d.rsi7Values| - 1] == Rsi(ks, 7)
    ensures forall i :: 0 <= i < |d.rsi7Values| ==> 0.0 <= d.rsi7Values[i] <= 100.0
    ensures forall i :: 0 <= i < |d.rsi14Values| ==> 0.0 <= d.rsi14Values[i] <= 100.0
  {
    if |d.ema20Values| > 0 { TrailingEndsWithWhole(ks, Ema20); }
    if |d.macdValues| > 0 { TrailingEndsWithWhole(ks, MacdLine); }
    if |d.rsi7Values| > 0 { TrailingEndsWithWhole(ks, Rsi7); }
    TrailingRsiInRange(ks, Rsi7, 7);
    TrailingRsiInRange(ks, Rsi14, 14);
  }

  lemma TrailingRsiInRange(ks: seq<Kline>, ind: Indicator, period: nat)
    requires (ind == Rsi7 && period == 7) || (ind == Rsi14 && period == 14)
    ensures var s := Trailing(ks, ind, |ks|);
      forall i :: 0 <= i < |s| ==> 0.0 <= s[i] <= 100.0
  {
    var s := Trailing(ks, ind, |ks|);
    forall i | 0 <= i < |s| ensures 0.0 <= s[i] <= 100.0 {
      RsiRange(ks[..FirstLength(ks, ind) + i], period);
    }
  }
}
