/** The indicator library: EMA, MACD, RSI and ATR over a candle sequence,
    oldest candle first. Each returns the sentinel 0 when the history is
    too short. Arithmetic is exact (`real`); the system uses `f64`. */
module Indicators {
  import opened MarketTypes

  // ---------------------------------------------------------------------
  // Shared helpers
  // ---------------------------------------------------------------------

  /** Left-to-right sum, as `iter().sum()` computes it. */
  function Sum(xs: seq<real>): real
  {
    if |xs| == 0 then 0.0 else Sum(xs[..|xs| - 1]) + xs[|xs| - 1]
  }

  function Abs(x: real): real { if x < 0.0 then -x else x }

  function Max(a: real, b: real): real { if a >= b then a else b }

  function Closes(ks: seq<Kline>): (c: seq<real>)
    ensures |c| == |ks|
  {
    seq(|ks|, i requires 0 <= i < |ks| => ks[i].close)
  }

  predicate AllWithin(xs: seq<real>, lo: real, hi: real)
  {
    forall i :: 0 <= i < |xs| ==> lo <= xs[i] <= hi
  }

  /** Every close of `ks` lies in `[lo, hi]`. */
  predicate ClosesWithin(ks: seq<Kline>, lo: real, hi: real)
  {
    forall i :: 0 <= i < |ks| ==> lo <= ks[i].close <= hi
  }

  lemma {:induction false} SumWithin(xs: seq<real>, lo: real, hi: real)
    requires AllWithin(xs, lo, hi)
    ensures |xs| as real * lo <= Sum(xs) <= |xs| as real * hi
    decreases |xs|
  {
    if |xs| > 0 {
      var init, last := xs[..|xs| - 1], xs[|xs| - 1];
      assert AllWithin(init, lo, hi) by {
        forall i | 0 <= i < |init| ensures lo <= init[i] <= hi {
          assert init[i] == xs[i];
        }
      }
      SumWithin(init, lo, hi);
      var n := |init| as real;
      assert |xs| as real == n + 1.0;
      assert lo <= last <= hi;
      assert n * lo + lo == (n + 1.0) * lo;
      assert n * hi + hi == (n + 1.0) * hi;
    }
  }

  lemma {:induction false} SumAppend(xs: seq<real>, ys: seq<real>)
    ensures Sum(xs + ys) == Sum(xs) + Sum(ys)
    decreases |ys|
  {
    if |ys| == 0 {
      assert xs + ys == xs;
    } else {
      assert (xs + ys)[..|xs + ys| - 1] == xs + ys[..|ys| - 1];
      SumAppend(xs, ys[..|ys| - 1]);
    }
  }

  /** The mean of values in `[lo, hi]` is in `[lo, hi]`. */
  lemma MeanWithin(xs: seq<real>, lo: real, hi: real)
    requires 1 <= |xs|
    requires AllWithin(xs, lo, hi)
    ensures lo <= Sum(xs) / |xs| as real <= hi
  {
    SumWithin(xs, lo, hi);
    DivWithin(Sum(xs), |xs| as real, lo, hi);
  }

  /** `n * lo <= a <= n * hi` with `n > 0` puts `a / n` in `[lo, hi]`. */
  lemma DivWithin(a: real, n: real, lo: real, hi: real)
    requires 0.0 < n
    requires n * lo <= a <= n * hi
    ensures lo <= a / n <= hi
  {
    var m := a / n;
    assert m * n == a;
    assert (m - lo) * n >= 0.0;
    assert (hi - m) * n >= 0.0;
    FactorSign(m - lo, n);
    FactorSign(hi - m, n);
  }

  /** A product with a positive factor is non-negative only if the other
      factor is. */
  lemma FactorSign(x: real, n: real)
    requires 0.0 < n
    requires 0.0 <= x * n
    ensures 0.0 <= x
  {
  }

  lemma FactorPositive(x: real, n: real)
    requires 0.0 < n
    requires 0.0 < x * n
    ensures 0.0 < x
  {
  }

  // ---------------------------------------------------------------------
  // Wilder smoothing: avg := (avg * (period - 1) + x) / period
  // ---------------------------------------------------------------------

  function WilderStep(avg: real, x: real, period: nat): real
    requires 1 <= period
  {
    (avg * (period - 1) as real + x) / period as real
  }

  function Wilder(avg: real, xs: seq<real>, period: nat): real
    requires 1 <= period
    decreases |xs|
  {
    if |xs| == 0 then avg else Wilder(WilderStep(avg, xs[0], period), xs[1..], period)
  }

  lemma WilderStepWithin(avg: real, x: real, period: nat, lo: real, hi: real)
    requires 1 <= period
    requires lo <= avg <= hi && lo <= x <= hi
    ensures lo <= WilderStep(avg, x, period) <= hi
  {
    var p := period as real;
    var q := (period - 1) as real;
    assert q >= 0.0 && p == q + 1.0;
    assert avg * q >= lo * q && avg * q <= hi * q by {
      assert (avg - lo) * q >= 0.0;
      assert (hi - avg) * q >= 0.0;
    }
    var num := avg * q + x;
    assert lo * p <= num <= hi * p;
    assert num / p * p == num;
  }

  /** Wilder smoothing of values in `[lo, hi]` from a seed in `[lo, hi]`
      stays in `[lo, hi]`. */
  lemma {:induction false} WilderWithin(avg: real, xs: seq<real>, period: nat, lo: real, hi: real)
    requires 1 <= period
    requires lo <= avg <= hi
    requires AllWithin(xs, lo, hi)
    ensures lo <= Wilder(avg, xs, period) <= hi
    decreases |xs|
  {
    if |xs| > 0 {
      WilderStepWithin(avg, xs[0], period, lo, hi);
      WilderWithin(WilderStep(avg, xs[0], period), xs[1..], period, lo, hi);
    }
  }

  /** A non-negative seed smoothed with non-negative values stays
      non-negative. */
  lemma {:induction false} WilderNonNegative(avg: real, xs: seq<real>, period: nat)
    requires 1 <= period
    requires 0.0 <= avg
    requires forall i :: 0 <= i < |xs| ==> 0.0 <= xs[i]
    ensures 0.0 <= Wilder(avg, xs, period)
    decreases |xs|
  {
    if |xs| > 0 {
      var p := period as real;
      var num := avg * (period - 1) as real + xs[0];
      assert num >= 0.0;
      assert num / p * p == num;
      WilderNonNegative(WilderStep(avg, xs[0], period), xs[1..], period);
    }
  }

  /** With a period of at least 2, Wilder smoothing of non-negative values
      is zero exactly when the seed and every smoothed value are zero. */
  lemma {:induction false} WilderZeroIff(avg: real, xs: seq<real>, period: nat)
    requires 2 <= period
    requires 0.0 <= avg
    requires forall i :: 0 <= i < |xs| ==> 0.0 <= xs[i]
    ensures Wilder(avg, xs, period) == 0.0 <==> avg == 0.0 && forall i :: 0 <= i < |xs| ==> xs[i] == 0.0
    decreases |xs|
  {
    if |xs| > 0 {
      var p := period as real;
      var q := (period - 1) as real;
      var next := WilderStep(avg, xs[0], period);
      var num := avg * q + xs[0];
      assert q >= 1.0;
      assert avg * q >= avg by {
        assert avg * (q - 1.0) >= 0.0;
      }
      assert next * p == num;
      assert next >= 0.0;
      assert next == 0.0 <==> avg == 0.0 && xs[0] == 0.0;
      WilderZeroIff(next, xs[1..], period);
      assert forall i :: 1 <= i < |xs| ==> xs[i] == xs[1..][i - 1];
    }
  }

  // ---------------------------------------------------------------------
  // EMA
  // ---------------------------------------------------------------------

  /** The smoothing factor 2 / (period + 1). */
  function Multiplier(period: nat): real
    requires 1 <= period
  {
    2.0 / (period as real + 1.0)
  }

  function EmaStep(ema: real, price: real, period: nat): real
    requires 1 <= period
  {
    (price - ema) * Multiplier(period) + ema
  }

  /** The EMA recurrence applied to `prices` in order, from `ema`. */
  function EmaFold(ema: real, prices: seq<real>, period: nat): real
    requires 1 <= period
    decreases |prices|
  {
    if |prices| == 0 then ema else EmaFold(EmaStep(ema, prices[0], period), prices[1..], period)
  }

  /** `calculate_ema`: 0 below `period` candles; otherwise the mean of the
      first `period` closes, smoothed with each later close in order. */
  function Ema(ks: seq<Kline>, period: nat): (r: real)
    requires 1 <= period
    ensures |ks| < period ==> r == 0.0
  {
    if |ks| < period then 0.0
    else
      var c := Closes(ks);
      EmaFold(Sum(c[..period]) / period as real, c[period..], period)
  }

  lemma EmaStepWithin(ema: real, price: real, period: nat, lo: real, hi: real)
    requires 1 <= period
    requires lo <= ema <= hi && lo <= price <= hi
    ensures lo <= EmaStep(ema, price, period) <= hi
  {
    var m := Multiplier(period);
    assert 0.0 < m <= 1.0 by {
      var d := period as real + 1.0;
      assert d >= 2.0;
      assert m * d == 2.0;
    }
    // the step is the convex combination m * price + (1 - m) * ema
    assert EmaStep(ema, price, period) == m * price + (1.0 - m) * ema;
    ConvexWithin(m, price, ema, lo, hi);
  }

  /** A convex combination of two values in `[lo, hi]` stays in it. */
  lemma ConvexWithin(m: real, x: real, y: real, lo: real, hi: real)
    requires 0.0 <= m <= 1.0
    requires lo <= x <= hi && lo <= y <= hi
    ensures lo <= m * x + (1.0 - m) * y <= hi
  {
    ProductNonNegative(m, x - lo);
    ProductNonNegative(1.0 - m, y - lo);
    ProductNonNegative(m, hi - x);
    ProductNonNegative(1.0 - m, hi - y);
  }

  lemma ProductNonNegative(a: real, b: real)
    requires 0.0 <= a && 0.0 <= b
    ensures 0.0 <= a * b
  {
  }

  lemma {:induction false} EmaFoldWithin(ema: real, prices: seq<real>, period: nat, lo: real, hi: real)
    requires 1 <= period
    requires lo <= ema <= hi
    requires AllWithin(prices, lo, hi)
    ensures lo <= EmaFold(ema, prices, period) <= hi
    decreases |prices|
  {
    if |prices| > 0 {
      EmaStepWithin(ema, prices[0], period, lo, hi);
      EmaFoldWithin(EmaStep(ema, prices[0], period), prices[1..], period, lo, hi);
    }
  }

  /** The EMA is a weighted average of closes: with enough history it lies
      between the lowest and the highest close. */
  lemma EmaWithinCloses(ks: seq<Kline>, period: nat, lo: real, hi: real)
    requires 1 <= period <= |ks|
    requires ClosesWithin(ks, lo, hi)
    ensures lo <= Ema(ks, period) <= hi
  {
    var c := Closes(ks);
    assert AllWithin(c, lo, hi);
    assert AllWithin(c[..period], lo, hi);
    MeanWithin(c[..period], lo, hi);
    EmaFoldWithin(Sum(c[..period]) / period as real, c[period..], period, lo, hi);
  }

  /** With exactly `period` candles the EMA is the plain average. */
  lemma EmaOfExactPeriod(ks: seq<Kline>, period: nat)
    requires 1 <= period == |ks|
    ensures Ema(ks, period) * period as real == Sum(Closes(ks))
  {
    var c := Closes(ks);
    assert c[..period] == c;
    assert c[period..] == [];
  }

  lemma {:induction false} EmaFoldAppend(ema: real, prices: seq<real>, price: real, period: nat)
    requires 1 <= period
    ensures EmaFold(ema, prices + [price], period) == EmaStep(EmaFold(ema, prices, period), price, period)
    decreases |prices|
  {
    if |prices| == 0 {
      assert prices + [price] == [price];
      assert [price][1..] == [];
    } else {
      assert (prices + [price])[1..] == prices[1..] + [price];
      EmaFoldAppend(EmaStep(ema, prices[0], period), prices[1..], price, period);
    }
  }

  /** Recomputing the EMA over a prefix grown by one candle equals one
      streaming update of the previous EMA with the new close. */
  lemma EmaExtend(ks: seq<Kline>, k: Kline, period: nat)
    requires 1 <= period <= |ks|
    ensures Ema(ks + [k], period) == EmaStep(Ema(ks, period), k.close, period)
  {
    var c := Closes(ks);
    var c' := Closes(ks + [k]);
    assert c' == c + [k.close];
    assert c'[..period] == c[..period];
    assert c'[period..] == c[period..] + [k.close];
    EmaFoldAppend(Sum(c[..period]) / period as real, c[period..], k.close, period);
  }

  /** Closes 1..5 with period 3: seed 2, then 3, then 4. */
  lemma EmaExample(ks: seq<Kline>)
    requires |ks| == 5
    requires forall i :: 0 <= i < 5 ==> ks[i].close == (i + 1) as real
    ensures Ema(ks, 3) == 4.0
  {
    var c := Closes(ks);
    assert c[..3] == [1.0, 2.0, 3.0];
    assert Sum([1.0, 2.0, 3.0]) == 6.0 by {
      assert [1.0, 2.0, 3.0][..2] == [1.0, 2.0];
      assert [1.0, 2.0][..1] == [1.0];
      assert [1.0][..0] == [];
    }
    assert c[3..] == [4.0, 5.0];
    assert Multiplier(3) == 0.5;
    assert EmaStep(2.0, 4.0, 3) == 3.0;
    assert EmaStep(3.0, 5.0, 3) == 4.0;
    assert [4.0, 5.0][1..] == [5.0];
    assert [5.0][1..] == [];
  }

  // ---------------------------------------------------------------------
  // MACD
  // ---------------------------------------------------------------------

  /** `calculate_macd`: 0 below 26 candles, else EMA12 - EMA26. */
  function Macd(ks: seq<Kline>): (r: real)
    ensures |ks| < 26 ==> r == 0.0
    ensures 26 <= |ks| ==> r == Ema(ks, 12) - Ema(ks, 26)
  {
    if |ks| < 26 then 0.0 else Ema(ks, 12) - Ema(ks, 26)
  }

  /** Both EMAs lie within the close range, so MACD is bounded by the
      width of that range. */
  lemma MacdWithinSpread(ks: seq<Kline>, lo: real, hi: real)
    requires ClosesWithin(ks, lo, hi)
    requires lo <= hi
    ensures lo - hi <= Macd(ks) <= hi - lo
  {
    if 26 <= |ks| {
      EmaWithinCloses(ks, 12, lo, hi);
      EmaWithinCloses(ks, 26, lo, hi);
    }
  }


  // ---------------------------------------------------------------------
  // Seeded Wilder average (shared by RSI and ATR)
  // ---------------------------------------------------------------------

  predicate NonNegative(xs: seq<real>)
  {
    forall i :: 0 <= i < |xs| ==> 0.0 <= xs[i]
  }

  /** Simple average of the first `period` values, then Wilder smoothing
      with each later value in order. */
  function SmoothedAverage(xs: seq<real>, period: nat): real
    requires 1 <= period <= |xs|
  {
    Wilder(Sum(xs[..period]) / period as real, xs[period..], period)
  }

  lemma {:induction false} SumNonNegative(xs: seq<real>)
    requires NonNegative(xs)
    ensures 0.0 <= Sum(xs)
    decreases |xs|
  {
    if |xs| > 0 {
      SumNonNegative(xs[..|xs| - 1]);
    }
  }

  lemma {:induction false} SumZeroIff(xs: seq<real>)
    requires NonNegative(xs)
    ensures Sum(xs) == 0.0 <==> forall i :: 0 <= i < |xs| ==> xs[i] == 0.0
    decreases |xs|
  {
    if |xs| > 0 {
      SumNonNegative(xs[..|xs| - 1]);
      SumZeroIff(xs[..|xs| - 1]);
    }
  }

  lemma SmoothedNonNegative(xs: seq<real>, period: nat)
    requires 1 <= period <= |xs|
    requires NonNegative(xs)
    ensures 0.0 <= SmoothedAverage(xs, period)
  {
    var p := period as real;
    SumNonNegative(xs[..period]);
    assert Sum(xs[..period]) / p * p == Sum(xs[..period]);
    WilderNonNegative(Sum(xs[..period]) / p, xs[period..], period);
  }

  lemma SmoothedWithin(xs: seq<real>, period: nat, lo: real, hi: real)
    requires 1 <= period <= |xs|
    requires AllWithin(xs, lo, hi)
    ensures lo <= SmoothedAverage(xs, period) <= hi
  {
    MeanWithin(xs[..period], lo, hi);
    WilderWithin(Sum(xs[..period]) / period as real, xs[period..], period, lo, hi);
  }

  /** For a period of at least 2, the smoothed average of non-negative
      values is zero exactly when every value is zero. */
  lemma SmoothedZeroIff(xs: seq<real>, period: nat)
    requires 2 <= period <= |xs|
    requires NonNegative(xs)
    ensures SmoothedAverage(xs, period) == 0.0 <==> forall i :: 0 <= i < |xs| ==> xs[i] == 0.0
  {
    var p := period as real;
    var head := xs[..period];
    var tail := xs[period..];
    SumNonNegative(head);
    SumZeroIff(head);
    var seed := Sum(head) / p;
    assert seed * p == Sum(head);
    WilderZeroIff(seed, tail, period);
    assert xs == head + tail;
    assert (forall i :: 0 <= i < |xs| ==> xs[i] == 0.0) <==>
           (forall i :: 0 <= i < |head| ==> head[i] == 0.0) && (forall i :: 0 <= i < |tail| ==> tail[i] == 0.0);
  }

  // ---------------------------------------------------------------------
  // RSI
  // ---------------------------------------------------------------------

  /** Close-to-close changes: `Changes(ks)[j]` is the change into candle j+1. */
  function Changes(ks: seq<Kline>): (ch: seq<real>)
    requires 1 <= |ks|
    ensures |ch| == |ks| - 1
  {
    seq(|ks| - 1, j requires 0 <= j < |ks| - 1 => ks[j + 1].close - ks[j].close)
  }

  function GainOf(change: real): real { if change > 0.0 then change else 0.0 }

  function LossOf(change: real): real { if change > 0.0 then 0.0 else -change }

  function Gains(ch: seq<real>): (g: seq<real>)
    ensures |g| == |ch|
    ensures NonNegative(g)
  {
    seq(|ch|, j requires 0 <= j < |ch| => GainOf(ch[j]))
  }

  function Losses(ch: seq<real>): (l: seq<real>)
    ensures |l| == |ch|
    ensures NonNegative(l)
  {
    seq(|ch|, j requires 0 <= j < |ch| => LossOf(ch[j]))
  }

  /** Final average gain and average loss. Both are non-negative. */
  function RsiAverages(ks: seq<Kline>, period: nat): (avg: (real, real))
    requires 1 <= period < |ks|
    ensures 0.0 <= avg.0 && 0.0 <= avg.1
  {
    var gains := Gains(Changes(ks));
    var losses := Losses(Changes(ks));
    SmoothedNonNegative(gains, period);
    SmoothedNonNegative(losses, period);
    (SmoothedAverage(gains, period), SmoothedAverage(losses, period))
  }

  /** `calculate_rsi`. */
  function Rsi(ks: seq<Kline>, period: nat): (r: real)
    requires 1 <= period
    ensures |ks| <= period ==> r == 0.0
  {
    if |ks| <= period then 0.0
    else
      var (avgGain, avgLoss) := RsiAverages(ks, period);
      if avgLoss == 0.0 then 100.0 else 100.0 - 100.0 / (1.0 + avgGain / avgLoss)
  }

  /** RSI lies in [0, 100]; with enough history it is exactly 100 when, and
      only when, the final average loss is 0. */
  lemma RsiRange(ks: seq<Kline>, period: nat)
    requires 1 <= period
    ensures 0.0 <= Rsi(ks, period) <= 100.0
    ensures period < |ks| ==> (Rsi(ks, period) == 100.0 <==> RsiAverages(ks, period).1 == 0.0)
  {
    if period < |ks| {
      var (g, l) := RsiAverages(ks, period);
      if l != 0.0 {
        var rs := g / l;
        assert rs * l == g;
        FactorSign(rs, l);
        var d := 1.0 + rs;
        var q := 100.0 / d;
        assert q * d == 100.0;
        FactorSign(q, d);
        assert q != 0.0;
        assert (100.0 - q) * d == 100.0 * rs;
        FactorSign(100.0 - q, d);
        assert Rsi(ks, period) == 100.0 - q;
      }
    }
  }

  lemma LossesZeroIffRising(ks: seq<Kline>)
    requires 1 <= |ks|
    ensures (forall i :: 0 <= i < |ks| - 1 ==> Losses(Changes(ks))[i] == 0.0) <==>
            (forall j :: 1 <= j < |ks| ==> ks[j - 1].close <= ks[j].close)
  {
    var ls := Losses(Changes(ks));
    if forall i :: 0 <= i < |ks| - 1 ==> ls[i] == 0.0 {
      forall j | 1 <= j < |ks| ensures ks[j - 1].close <= ks[j].close {
        assert ls[j - 1] == 0.0;
      }
    }
  }

  /** For a period of 2 or more, RSI is 100 exactly when no close is below
      the close before it. */
  lemma RsiHundredIffNeverFalls(ks: seq<Kline>, period: nat)
    requires 2 <= period < |ks|
    ensures Rsi(ks, period) == 100.0 <==> forall j :: 1 <= j < |ks| ==> ks[j - 1].close <= ks[j].close
  {
    RsiRange(ks, period);
    SmoothedZeroIff(Losses(Changes(ks)), period);
    LossesZeroIffRising(ks);
  }

  // ---------------------------------------------------------------------
  // ATR
  // ---------------------------------------------------------------------

  /** True range of candle `i` against the previous close. */
  function TrueRange(ks: seq<Kline>, i: nat): real
    requires 1 <= i < |ks|
  {
    var high := ks[i].high;
    var low := ks[i].low;
    var prevClose := ks[i - 1].close;
    Max(Max(high - low, Abs(high - prevClose)), Abs(low - prevClose))
  }

  /** Per-candle true ranges; the first candle has none and gets 0. */
  function TrueRanges(ks: seq<Kline>): (trs: seq<real>)
    ensures |trs| == |ks|
  {
    seq(|ks|, i requires 0 <= i < |ks| => if i == 0 then 0.0 else TrueRange(ks, i))
  }

  /** `calculate_atr`: the mean of true ranges 1..=period, then Wilder
      smoothing over the later ones. */
  function Atr(ks: seq<Kline>, period: nat): (r: real)
    requires 1 <= period
    ensures |ks| <= period ==> r == 0.0
  {
    if |ks| <= period then 0.0 else SmoothedAverage(TrueRanges(ks)[1..], period)
  }

  /** ATR is never negative: every true range is at least `|high - prev_close|`. */
  lemma AtrNonNegative(ks: seq<Kline>, period: nat)
    requires 1 <= period
    ensures 0.0 <= Atr(ks, period)
  {
    if period < |ks| {
      var trs := TrueRanges(ks)[1..];
      assert NonNegative(trs);
      SmoothedNonNegative(trs, period);
    }
  }

  /** ATR never exceeds a bound that every true range respects. */
  lemma AtrAtMostLargestRange(ks: seq<Kline>, period: nat, hi: real)
    requires 1 <= period
    requires 0.0 <= hi
    requires forall i :: 1 <= i < |ks| ==> TrueRange(ks, i) <= hi
    ensures Atr(ks, period) <= hi
  {
    if period < |ks| {
      var trs := TrueRanges(ks)[1..];
      assert AllWithin(trs, 0.0, hi);
      SmoothedWithin(trs, period, 0.0, hi);
    }
  }
}
