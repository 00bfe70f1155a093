/** Record shapes of the market snapshot and the positional candle decoder. */
module MarketTypes {
  import opened Wrappers

  const I64Min: int := -0x8000_0000_0000_0000
  const I64Max: int := 0x7FFF_FFFF_FFFF_FFFF

  /** One candle (kline). Prices and volumes are `f64` in the system and
      `real` here; times and the trade count are `i64`. */
  datatype Kline = Kline(
    openTime: int,
    open: real,
    high: real,
    low: real,
    close: real,
    volume: real,
    closeTime: int,
    quoteVolume: real,
    trades: int,
    takerBuyBaseVolume: real,
    takerBuyQuoteVolume: real)

  /** Open interest as delivered by the futures endpoint. */
  datatype OIData = OIData(latest: real, average: real)

  /** The last (at most ten) 3-minute candles and the indicators over them. */
  datatype IntradayData = IntradayData(
    midPrices: seq<real>,
    ema20Values: seq<real>,
    macdValues: seq<real>,
    rsi7Values: seq<real>,
    rsi14Values: seq<real>)

  /** Indicators over the 4-hour feed. */
  datatype LongerTermData = LongerTermData(
    ema20: real,
    ema50: real,
    atr3: real,
    atr14: real,
    currentVolume: real,
    averageVolume: real,
    macdValues: seq<real>,
    rsi14Values: seq<real>)

  /** The market snapshot handed to the decision maker. */
  datatype Data = Data(
    symbol: string,
    currentPrice: real,
    priceChange1h: real,
    priceChange4h: real,
    currentEma20: real,
    currentMacd: real,
    currentRsi7: real,
    openInterest: Option<OIData>,
    fundingRate: real,
    intradaySeries: Option<IntradayData>,
    longerTermContext: Option<LongerTermData>)

  /** `IntradayData::default()`: every series empty. */
  function DefaultIntraday(): (d: IntradayData)
    ensures d.midPrices == [] && d.ema20Values == [] && d.macdValues == []
    ensures d.rsi7Values == [] && d.rsi14Values == []
  {
    IntradayData([], [], [], [], [])
  }

  /** `LongerTermData::default()`: zero scalars and empty series. */
  function DefaultLongerTerm(): (d: LongerTermData)
    ensures d.ema20 == 0.0 && d.ema50 == 0.0 && d.atr3 == 0.0 && d.atr14 == 0.0
    ensures d.currentVolume == 0.0 && d.averageVolume == 0.0
    ensures d.macdValues == [] && d.rsi14Values == []
  {
    LongerTermData(0.0, 0.0, 0.0, 0.0, 0.0, 0.0, [], [])
  }

  // ---------------------------------------------------------------------
  // Positional decoding of an exchange candle array
  // ---------------------------------------------------------------------

  /** A JSON value as the decoder sees it. `Int` is a JSON number written
      without fraction or exponent, `Float` any other number. */
  datatype Json =
    | Null
    | Bool(b: bool)
    | Int(i: int)
    | Float(f: real)
    | Str(s: string)
    | Array(items: seq<Json>)
    | Object(fields: seq<(string, Json)>)

  /** `Value::as_i64`: integers that fit in 64 signed bits. */
  function AsI64(v: Json): (r: Option<int>)
    ensures r.Some? <==> v.Int? && I64Min <= v.i <= I64Max
    ensures r.Some? ==> r.value == v.i
  {
    match v
    case Int(i) => if I64Min <= i <= I64Max then Some(i) else None
    case _ => None
  }

  /** `parse_int`: the integer, or 0 when the value is not an `i64`. */
  function ParseInt(v: Json): int
  {
    AsI64(v).GetOr(0)
  }

  /** `parse_val::<f64>`: a string is parsed with `parse` (Rust's
      `str::parse::<f64>`), anything else is treated as the text "0", and a
      parse failure also gives 0. */
  function ParseVal(v: Json, parse: string -> Option<real>): real
  {
    var text := if v.Str? then v.s else "0";
    parse(text).GetOr(0.0)
  }

  /** The only fact about the float parser the decoder depends on. */
  predicate ParsesZero(parse: string -> Option<real>)
  {
    parse("0") == Some(0.0)
  }

  /** How a float field relates to its cell: 0 for a non-string cell or a
      text the parser rejects, otherwise the parsed value. */
  predicate DecodedFloat(x: real, cell: Json, parse: string -> Option<real>)
  {
    && (!cell.Str? ==> x == 0.0)
    && (cell.Str? && parse(cell.s).None? ==> x == 0.0)
    && (cell.Str? && parse(cell.s).Some? ==> x == parse(cell.s).value)
  }

  /** `Kline::from(Vec<Value>)`: fields by array position; index 9 is
      skipped. The source indexes up to 11 unconditionally, so a shorter
      array panics. */
  function KlineFromValues(v: seq<Json>, parse: string -> Option<real>): (k: Kline)
    requires 12 <= |v|
    requires ParsesZero(parse)
    ensures k.openTime == (if v[0].Int? && I64Min <= v[0].i <= I64Max then v[0].i else 0)
    ensures k.closeTime == (if v[6].Int? && I64Min <= v[6].i <= I64Max then v[6].i else 0)
    ensures k.trades == (if v[8].Int? && I64Min <= v[8].i <= I64Max then v[8].i else 0)
    ensures DecodedFloat(k.open, v[1], parse) && DecodedFloat(k.high, v[2], parse)
    ensures DecodedFloat(k.low, v[3], parse) && DecodedFloat(k.close, v[4], parse)
    ensures DecodedFloat(k.volume, v[5], parse) && DecodedFloat(k.quoteVolume, v[7], parse)
    ensures DecodedFloat(k.takerBuyBaseVolume, v[10], parse) && DecodedFloat(k.takerBuyQuoteVolume, v[11], parse)
  {
    Kline(
      ParseInt(v[0]),
      ParseVal(v[1], parse),
      ParseVal(v[2], parse),
      ParseVal(v[3], parse),
      ParseVal(v[4], parse),
      ParseVal(v[5], parse),
      ParseInt(v[6]),
      ParseVal(v[7], parse),
      ParseInt(v[8]),
      ParseVal(v[10], parse),
      ParseVal(v[11], parse))
  }

  /** A value the float parser reads back from its rendering. */
  predicate RoundTrips(x: real, parse: string -> Option<real>, render: real -> string)
  {
    parse(render(x)) == Some(x)
  }

  predicate IsI64(i: int) { I64Min <= i <= I64Max }

  /** The exchange's array layout of a candle, with `filler` at the unused
      index 9. */
  function KlineToValues(k: Kline, render: real -> string, filler: Json): (v: seq<Json>)
    ensures |v| == 12
  {
    [Int(k.openTime), Str(render(k.open)), Str(render(k.high)), Str(render(k.low)),
     Str(render(k.close)), Str(render(k.volume)), Int(k.closeTime),
     Str(render(k.quoteVolume)), Int(k.trades), filler,
     Str(render(k.takerBuyBaseVolume)), Str(render(k.takerBuyQuoteVolume))]
  }

  /** Decoding the exchange layout of a candle gives the candle back,
      whatever sits at index 9. */
  lemma KlineRoundTrip(k: Kline, parse: string -> Option<real>, render: real -> string, filler: Json)
    requires ParsesZero(parse)
    requires IsI64(k.openTime) && IsI64(k.closeTime) && IsI64(k.trades)
    requires RoundTrips(k.open, parse, render) && RoundTrips(k.high, parse, render)
    requires RoundTrips(k.low, parse, render) && RoundTrips(k.close, parse, render)
    requires RoundTrips(k.volume, parse, render) && RoundTrips(k.quoteVolume, parse, render)
    requires RoundTrips(k.takerBuyBaseVolume, parse, render)
    requires RoundTrips(k.takerBuyQuoteVolume, parse, render)
    ensures KlineFromValues(KlineToValues(k, render, filler), parse) == k
  {
  }

  /** Every field other than the integer ones falls back to 0 when its cell
      is not a string, and index 9 never influences the result. */
  lemma KlineDefaultsAndIgnoredIndex(v: seq<Json>, w: seq<Json>, parse: string -> Option<real>)
    requires 12 <= |v| && |w| == |v|
    requires ParsesZero(parse)
    requires forall i :: 0 <= i < |v| && i != 9 ==> v[i] == w[i]
    ensures KlineFromValues(v, parse) == KlineFromValues(w, parse)
    ensures forall i :: i in {1, 2, 3, 4, 5, 7, 10, 11} && !v[i].Str? ==> ParseVal(v[i], parse) == 0.0
  {
  }
}
