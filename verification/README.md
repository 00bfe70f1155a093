# Trading agent core in Dafny

This project models the deterministic core of an LLM-driven crypto trading
agent.
- **Market data.** Candles are decoded from the exchange's positional
  arrays. The EMA, MACD, RSI and ATR indicators, the intraday series and
  the 4-hour context are computed from them and assembled into one market
  snapshot.
- **Decision ledger.** Records are numbered and named on append. The latest
  records are selected by file name, statistics are counted over the log
  directory, and closed trades are reconstructed from the logged actions.
- **Configuration.** Per-trader and whole-configuration validation, the
  defaults, and the default-coin fill done on load.

Floating-point numbers (`f64`) are modelled as `real`. Network fetches, the
clock, the float parser and the file system become parameters:
- the snapshot takes the fetched candles, open interest and funding rate;
- `LogDecision` takes the clock reading and whether the write succeeded;
- the log directory is a sequence of entries, each with a name, a kind and
  its parsed content;
- candle decoding takes the float parser.

Modules:
- `Wrappers`: `Option` and `Result`.
- `Text`: ASCII case mapping, digits, and ", "-lists.
- `MarketTypes`: record shapes and the positional candle decoder.
- `Indicators`: the indicators.
- `Market`: `normalize`, `format_float_slice`, the series and the snapshot.
- `Ledger`: decision records, file names, windowing and statistics.
- `Positions`: the side parser and trade reconstruction.
- `Settings`: the configuration.

## Model

| member | source | states |
|---|---|---|
| MarketTypes.KlineFromValues | src/types.rs:89-115 | Fields are read by array position and index 9 is ignored. Integer cells that are not `i64` give 0. A non-string float cell or an unparsable one gives 0, otherwise the parsed value. Arrays shorter than 12 are excluded because the source indexes them unconditionally. |
| MarketTypes.KlineRoundTrip | src/types.rs:89-115 | Decoding the exchange's 12-cell layout of a candle gives the candle back, whatever sits at index 9, when each price renders and parses back. |
| MarketTypes.KlineDefaultsAndIgnoredIndex | src/types.rs:91-96 | Arrays differing only at index 9 decode alike, and any non-string cell at a float position decodes to 0. |
| MarketTypes.DefaultIntraday | src/types.rs:30-38 | The default intraday data has all five series empty. |
| MarketTypes.DefaultLongerTerm | src/types.rs:40-51 | The default longer-term context has zero scalars and empty series. |
| Indicators.Ema | src/data.rs:85-100 | The EMA is 0 when there are fewer candles than the period. |
| Indicators.EmaWithinCloses | src/data.rs:85-100 | With enough candles the EMA lies between the lowest and the highest close. |
| Indicators.EmaOfExactPeriod | src/data.rs:91 | With exactly `period` candles the EMA is their simple mean. |
| Indicators.EmaExtend | src/data.rs:95-98 | One more candle moves the EMA by one smoothing step toward its close, so the EMA is a left fold. |
| Indicators.EmaExample | src/data.rs:85-100 | Closes 1..5 with period 3 give 4. |
| Indicators.Macd | src/data.rs:102-109 | MACD is 0 below 26 candles and otherwise EMA12 minus EMA26. |
| Indicators.MacdWithinSpread | src/data.rs:102-109 | MACD is bounded by the spread of the closes. |
| Indicators.Rsi | src/data.rs:111-116 | RSI is 0 when there are no more candles than the period. |
| Indicators.RsiRange | src/data.rs:111-146 | RSI lies in [0, 100], and with enough history it is 100 exactly when the smoothed average loss is 0. |
| Indicators.RsiHundredIffNeverFalls | src/data.rs:111-146 | For periods of at least 2, RSI is 100 exactly when no close is below the previous one. |
| Indicators.Atr | src/data.rs:148-151 | ATR is 0 when there are no more candles than the period. |
| Indicators.AtrNonNegative | src/data.rs:148-176 | ATR is never negative. |
| Indicators.AtrAtMostLargestRange | src/data.rs:148-176 | ATR never exceeds the largest true range of the series. |
| Market.Normalize | src/data.rs:405-412 | The result is upper case and ends in USDT, and starts with the upper-cased input. The suffix is appended exactly when the upper-cased input does not already end in it. |
| Market.NormalizeIdempotent | src/data.rs:405-412 | Normalising twice is normalising once. |
| Market.FormatFloatSlice | src/data.rs:399-402 | The output is bracketed, and an empty slice gives "[]". |
| Market.FormatFloatSliceRoundTrip | src/data.rs:399-402 | Splitting the bracketed ", "-list gives back each number's rendering, provided renderings are non-empty and comma-free. |
| Market.TrailingLength | src/data.rs:178-205 | A trailing series has min(10, n - m + 1) values, where n is the number of candles and m the series' minimum history. It is empty when n < m. |
| Market.CalculateIntradaySeries | src/data.rs:178-205 | Mid prices are the last min(n, 10) closes. Each series holds the indicator over every prefix ending in the last ten candles, gated at 20, 26, >7 and >14 candles. Empty input gives the default. |
| Market.CalculateLongerTermData | src/data.rs:207-238 | EMA20/50 and ATR3/14 over the whole series, and the last candle's volume. The average volume times the candle count is the volume sum. MACD and RSI14 trail over the last ten prefixes. Empty input gives the default. |
| Market.AverageVolumeWithin | src/data.rs:219-225 | The average volume lies between the smallest and the largest volume. |
| Market.PriceChange | src/data.rs:42-62 | The change is 0 without a positive reference close far enough back. Otherwise it is the percentage that carries the close `back` candles from the end onto the current price. |
| Market.PercentChangeInverse | src/data.rs:44-46 | Applying the percentage to the reference gives the current price, and it is positive exactly when the price rose. |
| Market.AssembleSnapshot | src/data.rs:20-81 | An error with the exact message occurs exactly when the last 3m close is 0 or missing. Otherwise the snapshot uses the normalised symbol, the indicator values, the 21-back and 2-back changes and both series sections. |
| Market.SnapshotAgreesWithSeries | src/data.rs:38-40 | The current EMA20, MACD and RSI7 equal the last entries of their intraday series, and every RSI in the series lies in [0, 100]. |
| Ledger.NewLogger | src/logger.rs:87-102 | The directory is never empty. The empty name becomes the default directory and any other name is kept. Numbering starts at 0. |
| Ledger.FileName | src/logger.rs:109-111 | The name is `decision_`, a 15-character stamp, `_cycle`, the decimal cycle number and `.json`. FileNameRoundTrip is its inverse. |
| Ledger.LogDecision | src/logger.rs:104-122 | The counter goes up by one and the record carries the new number and the clock reading. The file name parses back to that timestamp and number. The counter moves even when the write fails. |
| Ledger.FileNameRoundTrip | src/logger.rs:109-110 | `decision_YYYYMMDD_HHMMSS_cycleN.json` parses back to its date, time and cycle fields. |
| Ledger.CyclesAreConsecutive | src/logger.rs:104-107 | Successive appends stamp consecutive numbers from the logger's count plus one. |
| Ledger.SortByName | src/logger.rs:127-134 | Sorting by name yields a name-ordered permutation of the entries. |
| Ledger.LatestWindow | src/logger.rs:124-137 | The window holds at most `n` entries, all regular files. |
| Ledger.LatestRecords | src/logger.rs:124-157 | At most `n` records are returned. |
| Ledger.LatestRecordsContents | src/logger.rs:139-153 | The records are exactly the contents of the window's files that parse, in window order. The i-th record comes from the i-th parsing file, and no parsing file is skipped. A record is returned exactly when some window file parses to it. |
| Ledger.LatestWindowSpec | src/logger.rs:124-137 | The window holds min(n, #files) regular files in name order. It is drawn from the directory, and no regular file left out has a larger name than one inside. |
| Ledger.WindowIsSuffix | src/logger.rs:135-137 | The records of a narrower window are a suffix of those of a wider one. |
| Ledger.CleanWindowKeepsAll | src/logger.rs:139-153 | When every file in the window parses, every one yields a record. |
| Ledger.GetStatistics | src/logger.rs:234-280 | Successful plus failed cycles equal total cycles, which are at most the number of entries. StatisticsCountParsedRecords ties every counter to the readable records. |
| Ledger.StatisticsOrderIndependent | src/logger.rs:234-280 | The statistics do not depend on the order in which the directory lists its entries. |
| Ledger.TotalCountsParsedRecords | src/logger.rs:242-261 | The total counts exactly the parseable non-directory entries. |
| Ledger.StatisticsOfParsedRecords | src/logger.rs:240-278 | The scan adds up, record by record, exactly the readable records of non-directory entries; unreadable files and directories contribute nothing. |
| Ledger.RecordsStatisticsCounts | src/logger.rs:261-276 | Over a list of records: one cycle per record, successful cycles are the records marked successful, failed ones the rest, and the open and close counters are the successful open and close actions over all their decisions. |
| Ledger.StatisticsCountParsedRecords | src/logger.rs:234-280 | For every directory: total, successful and failed cycles and the open and close counters equal those counts taken over the readable records of non-directory entries. |
| Ledger.CountsPartitionSuccessful | src/logger.rs:263-270 | Every successful action is counted once, as an open or as a close, and failed actions are not counted. |
| Positions.SideFromStr | src/logger.rs:460-469 | Parsing succeeds exactly on case-insensitive "short" or "long". |
| Positions.SideFromStrRoundTrip | src/logger.rs:460-469 | Parsing inverts naming in any letter case, and every accepted text lower-cases to the name of its side. |
| Positions.PosKeyInjective | src/logger.rs:313 | The key `symbol_side` determines its symbol and side, so keying by the pair is the same. |
| Positions.Settle | src/logger.rs:392-405 | PnL is the side's direction times quantity times the price move. The position value is quantity times open price, and the margin times leverage is the value. The percentage times the margin is 100 times the PnL, or it is 0 when the margin is not positive. |
| Positions.SettleSign | src/logger.rs:392-405 | With positive quantity a trade wins exactly when the price moved its way. The percentage has the sign of the PnL under positive leverage and open price. |
| Positions.Step | src/logger.rs:299-333 | A failed action changes nothing. An open records its position under its key. A close of a held key appends exactly the trade settled from that position at the close price and removes the key; a close with no open position changes nothing. Keys other than the action's are untouched. |
| Positions.Replay | src/logger.rs:296-334 | Replaying only appends trades, at most one per action. |
| Positions.ReplayInvariant | src/logger.rs:296-334 | Replaying keeps each position under its own side's key and only appends trades, at most one per successful close. |
| Positions.FailedActionsIgnored | src/logger.rs:299-301 | Failed actions have no effect on the replay. |
| Positions.OpenThenCloseSettles | src/logger.rs:353-405 | An open then a close of the same symbol and side settle one trade at the open's price, remove the key, and leave the other keys unchanged. |
| Positions.LongRoundTripExample | src/logger.rs:392-405 | 2 units long at 100 with 5x leverage, closed at 110, give PnL 20, value 200, margin 40 and 50 percent. |
| Positions.WindowTrades | src/logger.rs:336-405 | The corrected window pass settles at most one trade per window action. |
| Positions.WindowTradesMatchContinuousReplay | src/logger.rs:295-336 | Trades of the window primed by the earlier records are exactly what a continuous replay settles after those records. |
| Positions.ReconstructTrades | src/logger.rs:286-293 | An empty window yields no trades. |
| Positions.ReconstructTradesIsContinuous | src/logger.rs:282-336 | The reconstructed trades are the window part of a continuous replay of the last 3n records. |
| Positions.PrimedBookAsWritten | src/logger.rs:296-334 | As written, priming is empty unless the wider history is longer than the window. When the window is its tail, the primed book already has the window replayed on top of the earlier records. |
| Positions.WindowPassAsWritten | src/logger.rs:336-370 | The window pass as written never removes a position and only appends trades, at most one per action. |
| Positions.ReconstructTradesAsWritten | src/logger.rs:282-370 | As written, an empty window yields no trades. |
| Positions.PrimingCounterexample | src/logger.rs:295-370 | As written, a short opened before the window and closed inside it is removed while priming, so nothing is settled. The corrected reconstruction settles it at PnL -10. See Findings. |
| Positions.SideMappingCounterexample | src/logger.rs:342-348 | As written, the window pass never settles a long opened and closed in the window. See Findings. |
| Settings.DefaultExchange | src/config.rs:38-40 | The default exchange is Binance. |
| Settings.DefaultExchangeNeedsBinanceKeys | src/config.rs:51-52 | A trader naming no exchange needs both Binance keys once its id, name and balance pass. |
| Settings.DefaultScanInterval | src/config.rs:95-97 | The default scan interval is 3 minutes. |
| Settings.ValidateTrader | src/config.rs:106-170 | A reported error names a requirement the trader really breaks. |
| Settings.ValidateTraderReportsFirstViolation | src/config.rs:106-170 | A trader passes exactly when no requirement is broken. Otherwise the reported error is a broken requirement, the first in checking order. |
| Settings.ValidateConfig | src/config.rs:250-274 | Validation passes exactly when there are traders with distinct ids, all valid. Otherwise the error says what holds at its index: the traders before it are clean, and this one repeats an earlier id or, with a fresh id, fails its own validation. |
| Settings.ReportedAtUnique | src/config.rs:257-272 | At most one error fits that description, so the first problem is the one reported. |
| Settings.CheckConfig | src/config.rs:250-274 | The loop with a set of seen ids computes the same verdict. |
| Settings.ConfigErrorMessageCarriesDetail | src/config.rs:260-270 | A per-trader error message ends with the trader's own message, and a duplicate message ends with its index. |
| Settings.DefaultCoinList | src/config.rs:220-231 | Eight distinct symbols, each already in normalised form. |
| Settings.DefaultLeverage | src/config.rs:180-187 | 5x for both classes, which raises no warning. |
| Settings.DefaultConfig | src/config.rs:233-246 | No traders, default coins on, port 8080, zero limits, default leverage. |
| Settings.LeverageWarnings | src/config.rs:191-204 | There is a warning for a leverage exactly when it is above 5, exactly one per such leverage and no other, and the BTC/ETH warning comes first. |
| Settings.FillDefaultCoins | src/config.rs:283-285 | Only the coin list changes. An empty list with default coins in use becomes the default coin list; any other config is unchanged. |
| Settings.FillDefaultCoinsStable | src/config.rs:283-288 | Filling is idempotent and does not change the validation verdict. |
| Settings.LoadConfig | src/config.rs:278-294 | Loading succeeds exactly when validation of the decoded configuration does. It then returns the filled configuration and the leverage warnings. |
| Settings.DefaultConfigRejected | src/config.rs:233-274 | The default configuration is rejected for having no trader. |

## Left out

- Fetching candles, open interest and funding rates over HTTP. The snapshot takes them as arguments, and the OI and funding fetchers' own parsing is not modelled.
- Rendering the snapshot as text (`format`). Number formatting (`{:.3}`) is a parameter of `FormatFloatSlice`.
- IEEE-754 behaviour: rounding, NaN and infinities. Real arithmetic is exact, so properties such as the EMA bounds hold only up to rounding in the system.
- Positions.Settle: with leverage 0 the system divides by zero and gets an infinite or NaN margin. The model records a margin of 0. The percentage is 0 in both, so only the margin field differs.
- Settings.ValidateTrader: a NaN initial balance passes the system's `<= 0.0` test; reals have no NaN.
- Market.Normalize: upper-casing covers ASCII letters only. Non-ASCII symbols are outside the model.
- Positions.SideFromStr: also ASCII-only lower-casing. This is exact here, because no non-ASCII character lower-cases to a letter of "short" or "long".
- Ledger.LogDecision: requires the counter below the `i32` maximum, where the increment would overflow. The statistics counters are also `i32` in the system and unbounded here.
- Ledger.LogDecision: requires a clock reading with a year of at most four digits and a sub-second part below one second, so no leap second (ValidDateTime). The system's formatter would also print a signed or five-digit year, and a leap second as second "60", but the system clock does not produce such readings, and the file-name round trip is stated for the four-digit layout only.
- Serialising records to JSON, creating the log directory, `get_record_by_date` and `clean_old_records`. These are file-system effects and clock-dependent.
- Market.AssembleSnapshot: requires a funding rate whenever the last 3m close is non-zero. The system unwraps it, so a missing rate, as when the premium-index request gets a non-success status, is a panic there. The model has no panic path.
- Ledger.LatestRecords, Ledger.GetStatistics: a failing `read_dir` is an error in the system for both scans. The model starts from the listed entries, and an entry whose metadata cannot be read counts as a non-file.
- The rest of `analyze_performance` after the trade is built: duration, stop-loss flag, win rate, profit factor, Sharpe ratio and per-symbol aggregation. The source body is unfinished at that point: the outcome is never collected and nothing is returned. The model completes the reconstruction: outcomes are collected, and a matched close removes its position.
- The `lookback_cycles * 3` product in `analyze_performance` can overflow `usize`. The model's `3 * n` is unbounded.
- Reading and decoding the configuration file: I/O and JSON errors. `LoadConfig` starts from the decoded configuration, and JSON field defaults are the `Default*` functions.
- `get_scan_interval`: a unit conversion to a duration.

## Findings

| source | as written | input that shows it | evidently intended | confidence | as-written member | corrected member |
|---|---|---|---|---|---|---|
| src/logger.rs:295-334 | When the 3n history is longer than the window, priming replays all of it, the window included. The window is then replayed on top of that book. | Before the window: open short BTCUSDT at 100. In the window: close short at 110. As written, priming already removes the position, so the window pass settles no trade. | Prime with the records that precede the window only. The short is then still open and the close settles it, PnL -10. | medium, not executed | Positions.PrimedBookAsWritten, shown by Positions.PrimingCounterexample | Positions.WindowTrades, proved by Positions.WindowTradesMatchContinuousReplay |
| src/logger.rs:342-348 | In the window pass, both opens get side "long" and a long close gets the empty side. The `open_short` test is repeated in place of `close_long`. | In the window: open long BTCUSDT at 100, then close long at 110. The close looks up `BTCUSDT_`, finds nothing, and no trade is settled. | Use the mapping of the priming pass at lines 304-311: long for open/close long, short for open/close short. The close then settles PnL +10. | high, not executed | Positions.WindowPassAsWritten, shown by Positions.SideMappingCounterexample | Positions.Replay, proved by Positions.OpenThenCloseSettles |
