/** Trader and system configuration: the record shapes, their defaults,
    per-trader validation with its ordered error messages, whole-config
    validation (non-empty, unique ids, every trader valid), the default
    coin fill and the leverage warnings of loading. Reading the file and
    JSON decoding are outside the model: loading starts from the decoded
    configuration. */
module Settings {
  import opened Wrappers
  import opened Text
  import Market

  // ---------------------------------------------------------------------
  // Shapes and defaults
  // ---------------------------------------------------------------------

  datatype AiModel = Qwen | Deepseek | Custom

  datatype Exchange = Binance | Hyperliquid | Aster

  /** The exchange assumed when a trader names none. */
  function DefaultExchange(): (e: Exchange)
    ensures e == Binance
  {
    Binance
  }

  /** The scan interval, in minutes, assumed when a trader names none. */
  function DefaultScanInterval(): (minutes: int)
    ensures minutes == 3
  {
    3
  }

  datatype TraderConfig = TraderConfig(
    id: string,
    name: string,
    enabled: bool,
    aiModel: AiModel,
    exchange: Exchange,
    binanceApiKey: Option<string>,
    binanceSecretKey: Option<string>,
    hyperliquidPrivateKey: Option<string>,
    hyperliquidWalletAddr: Option<string>,
    hyperliquidTestnet: bool,
    asterUser: Option<string>,
    asterSigner: Option<string>,
    asterPrivateKey: Option<string>,
    qwenKey: Option<string>,
    deepseekKey: Option<string>,
    customApiUrl: Option<string>,
    customApiKey: Option<string>,
    customModelName: Option<string>,
    initialBalance: real,
    scanIntervalMinutes: int)

  datatype LeverageConfig = LeverageConfig(btcEthLeverage: int, altcoinLeverage: int)

  /** Leverage 5 for both classes: at the sub-account limit, so it raises
      no warning. */
  function DefaultLeverage(): (l: LeverageConfig)
    ensures l.btcEthLeverage == 5 && l.altcoinLeverage == 5
    ensures LeverageWarnings(l) == []
  {
    LeverageConfig(5, 5)
  }

  datatype Config = Config(
    traders: seq<TraderConfig>,
    useDefaultCoins: bool,
    defaultCoins: seq<string>,
    apiServerPort: int,
    maxDailyLoss: real,
    maxDrawdown: real,
    stopTradingMinutes: int,
    leverage: LeverageConfig)

  /** The eight default trading symbols. */
  function DefaultCoinList(): (coins: seq<string>)
    ensures |coins| == 8
    ensures forall i, j :: 0 <= i < j < |coins| ==> coins[i] != coins[j]
    ensures forall i :: 0 <= i < |coins| ==> Market.Normalize(coins[i]) == coins[i]
  {
    DefaultCoinsDistinct();
    DefaultCoinsNormalized();
    DefaultCoins
  }

  const DefaultCoins: seq<string> :=
    ["BTCUSDT", "ETHUSDT", "SOLUSDT", "BNBUSDT", "XRPUSDT", "DOGEUSDT", "ADAUSDT", "HYPEUSDT"]

  lemma DefaultCoinsDistinct()
    ensures forall i, j :: 0 <= i < j < |DefaultCoins| ==> DefaultCoins[i] != DefaultCoins[j]
  {
  }

  lemma DefaultCoinsNormalized()
    ensures forall i :: 0 <= i < |DefaultCoins| ==> Market.Normalize(DefaultCoins[i]) == DefaultCoins[i]
  {
    forall i | 0 <= i < |DefaultCoins| ensures Market.Normalize(DefaultCoins[i]) == DefaultCoins[i] {
      NormalizedWhenUpperWithQuote(DefaultCoins[i]);
    }
  }

  /** A symbol with no lower-case letter that already ends in the quote
      asset is left alone by normalisation. */
  lemma NormalizedWhenUpperWithQuote(s: string)
    requires NoLower(s) && EndsWith(s, Market.Quote)
    ensures Market.Normalize(s) == s
  {
    assert ToUpper(s) == s;
  }

  /** `Config::default()`: no traders, default coins in use, port 8080,
      no loss limits, default leverage. */
  function DefaultConfig(): (c: Config)
    ensures c.traders == [] && c.useDefaultCoins && c.defaultCoins == DefaultCoinList()
    ensures c.apiServerPort == 8080 && c.maxDailyLoss == 0.0 && c.maxDrawdown == 0.0
    ensures c.stopTradingMinutes == 0 && c.leverage == DefaultLeverage()
  {
    Config([], true, DefaultCoinList(), 8080, 0.0, 0.0, 0, DefaultLeverage())
  }

  // ---------------------------------------------------------------------
  // Validating one trader
  // ---------------------------------------------------------------------

  datatype TraderError =
    | EmptyId
    | EmptyName
    | NonPositiveBalance
    | BinanceKeysMissing
    | HyperliquidKeyMissing
    | AsterKeysMissing
    | QwenKeyMissing
    | DeepseekKeyMissing
    | CustomUrlMissing
    | CustomKeyMissing
    | CustomModelMissing

  function TraderErrorMessage(e: TraderError): string
  {
    match e
    case EmptyId => "ID cannot be empty"
    case EmptyName => "Name cannot be empty"
    case NonPositiveBalance => "initial_balance must be greater than 0"
    case BinanceKeysMissing => "Binance exchange requires 'binance_api_key' and 'binance_secret_key'"
    case HyperliquidKeyMissing => "Hyperliquid exchange requires 'hyperliquid_private_key'"
    case AsterKeysMissing => "Aster exchange requires 'aster_user', 'aster_signer', and 'aster_private_key'"
    case QwenKeyMissing => "Qwen AI model requires 'qwen_key'"
    case DeepseekKeyMissing => "DeepSeek AI model requires 'deepseek_key'"
    case CustomUrlMissing => "Custom AI model requires 'custom_api_url'"
    case CustomKeyMissing => "Custom AI model requires 'custom_api_key'"
    case CustomModelMissing => "Custom AI model requires 'custom_model_name'"
  }

  /** `TraderConfig::validate`: identity, then balance, then the keys the
      chosen exchange needs, then the keys the chosen model needs; the
      first failing check is reported. The wallet address and the testnet
      flag are never checked. */
  function ValidateTrader(t: TraderConfig): (r: Result<(), TraderError>)
    ensures r.Err? ==> Violated(t, r.error)
  {
    if t.id == "" then Err(EmptyId)
    else if t.name == "" then Err(EmptyName)
    else if t.initialBalance <= 0.0 then Err(NonPositiveBalance)
    else if t.exchange == Binance && (t.binanceApiKey.None? || t.binanceSecretKey.None?) then Err(BinanceKeysMissing)
    else if t.exchange == Hyperliquid && t.hyperliquidPrivateKey.None? then Err(HyperliquidKeyMissing)
    else if t.exchange == Aster && (t.asterUser.None? || t.asterSigner.None? || t.asterPrivateKey.None?) then Err(AsterKeysMissing)
    else if t.aiModel == Qwen && t.qwenKey.None? then Err(QwenKeyMissing)
    else if t.aiModel == Deepseek && t.deepseekKey.None? then Err(DeepseekKeyMissing)
    else if t.aiModel == Custom && t.customApiUrl.None? then Err(CustomUrlMissing)
    else if t.aiModel == Custom && t.customApiKey.None? then Err(CustomKeyMissing)
    else if t.aiModel == Custom && t.customModelName.None? then Err(CustomModelMissing)
    else Ok(())
  }

  /** Each requirement on a trader, stated on its own: `Violated(t, e)`
      holds when `t` breaks the requirement whose failure `e` reports. */
  predicate Violated(t: TraderConfig, e: TraderError)
  {
    match e
    case EmptyId => t.id == ""
    case EmptyName => t.name == ""
    case NonPositiveBalance => t.initialBalance <= 0.0
    case BinanceKeysMissing => t.exchange == Binance && (t.binanceApiKey.None? || t.binanceSecretKey.None?)
    case HyperliquidKeyMissing => t.exchange == Hyperliquid && t.hyperliquidPrivateKey.None?
    case AsterKeysMissing => t.exchange == Aster && (t.asterUser.None? || t.asterSigner.None? || t.asterPrivateKey.None?)
    case QwenKeyMissing => t.aiModel == Qwen && t.qwenKey.None?
    case DeepseekKeyMissing => t.aiModel == Deepseek && t.deepseekKey.None?
    case CustomUrlMissing => t.aiModel == Custom && t.customApiUrl.None?
    case CustomKeyMissing => t.aiModel == Custom && t.customApiKey.None?
    case CustomModelMissing => t.aiModel == Custom && t.customModelName.None?
  }

  /** The order in which the requirements are checked. */
  function Rank(e: TraderError): nat
  {
    match e
    case EmptyId => 0
    case EmptyName => 1
    case NonPositiveBalance => 2
    case BinanceKeysMissing => 3
    case HyperliquidKeyMissing => 3
    case AsterKeysMissing => 3
    case QwenKeyMissing => 4
    case DeepseekKeyMissing => 4
    case CustomUrlMissing => 4
    case CustomKeyMissing => 5
    case CustomModelMissing => 6
  }

  /** A trader passes exactly when it breaks no requirement, and otherwise
      the error reported is a broken requirement that comes first in
      checking order. */
  lemma ValidateTraderReportsFirstViolation(t: TraderConfig)
    ensures ValidateTrader(t).Ok? <==> forall e :: !Violated(t, e)
    ensures ValidateTrader(t).Err? ==> Violated(t, ValidateTrader(t).error)
    ensures ValidateTrader(t).Err? ==> forall e :: Violated(t, e) ==> Rank(ValidateTrader(t).error) <= Rank(e)
  {
    if ValidateTrader(t).Ok? {
      forall e ensures !Violated(t, e) {
        match e
        case EmptyId =>
        case EmptyName =>
        case NonPositiveBalance =>
        case BinanceKeysMissing =>
        case HyperliquidKeyMissing =>
        case AsterKeysMissing =>
        case QwenKeyMissing =>
        case DeepseekKeyMissing =>
        case CustomUrlMissing =>
        case CustomKeyMissing =>
        case CustomModelMissing =>
      }
    } else {
      assert Violated(t, ValidateTrader(t).error);
    }
  }

  /** A trader that names no exchange is on the default one and so must
      carry both Binance keys: missing either is the error reported once
      the id, name and balance pass. */
  lemma DefaultExchangeNeedsBinanceKeys(t: TraderConfig)
    requires t.exchange == DefaultExchange()
    requires t.id != "" && t.name != "" && t.initialBalance > 0.0
    ensures ValidateTrader(t).Ok? ==> t.binanceApiKey.Some? && t.binanceSecretKey.Some?
    ensures t.binanceApiKey.None? || t.binanceSecretKey.None? ==> ValidateTrader(t) == Err(BinanceKeysMissing)
  {
  }

  // ---------------------------------------------------------------------
  // Validating the whole configuration
  // ---------------------------------------------------------------------

  datatype ConfigError =
    | NoTraders
    | DuplicateId(id: string, index: nat)
    | TraderInvalid(index: nat, id: string, error: TraderError)

  function ConfigErrorMessage(e: ConfigError): string
  {
    match e
    case NoTraders => "At least one trader must be configured"
    case DuplicateId(id, i) => "Trader ID '" + id + "' is duplicated at index " + Decimal(i)
    case TraderInvalid(i, id, err) => "Trader[" + Decimal(i) + "][id=" + id + "] validation failed: " + TraderErrorMessage(err)
  }

  /** A per-trader failure keeps the trader's own message at its end, and
      a duplicate names the index last. */
  lemma ConfigErrorMessageCarriesDetail(e: ConfigError)
    ensures e.TraderInvalid? ==> EndsWith(ConfigErrorMessage(e), TraderErrorMessage(e.error))
    ensures e.DuplicateId? ==> EndsWith(ConfigErrorMessage(e), Decimal(e.index))
  {
    if e.TraderInvalid? {
      var m := ConfigErrorMessage(e);
      var tail := TraderErrorMessage(e.error);
      assert m == ("Trader[" + Decimal(e.index) + "][id=" + e.id + "] validation failed: ") + tail;
    }
    if e.DuplicateId? {
      var m := ConfigErrorMessage(e);
      assert m == ("Trader ID '" + e.id + "' is duplicated at index ") + Decimal(e.index);
    }
  }

  function Ids(ts: seq<TraderConfig>): set<string>
  {
    set i | 0 <= i < |ts| :: ts[i].id
  }

  predicate DistinctIds(ts: seq<TraderConfig>)
  {
    forall i, j :: 0 <= i < j < |ts| ==> ts[i].id != ts[j].id
  }

  predicate AllTradersValid(ts: seq<TraderConfig>)
  {
    forall i :: 0 <= i < |ts| ==> ValidateTrader(ts[i]).Ok?
  }

  /** No problem among the traders: ids unique and every trader valid. */
  predicate Clean(ts: seq<TraderConfig>)
  {
    DistinctIds(ts) && AllTradersValid(ts)
  }

  /** What the error at index `k` says about the traders: everything
      before `k` is clean, and trader `k` repeats an earlier id or, with a
      fresh id, fails its own validation. */
  predicate ReportedAt(ts: seq<TraderConfig>, e: ConfigError)
  {
    match e
    case NoTraders => ts == []
    case DuplicateId(id, k) =>
      k < |ts| && Clean(ts[..k]) && ts[k].id == id && (exists j :: 0 <= j < k && ts[j].id == id)
    case TraderInvalid(k, id, err) =>
      k < |ts| && Clean(ts[..k]) && ts[k].id == id && (forall j :: 0 <= j < k ==> ts[j].id != id)
      && ValidateTrader(ts[k]) == Err(err)
  }

  lemma IdsExtend(ts: seq<TraderConfig>, i: nat)
    requires i < |ts|
    ensures Ids(ts[..i + 1]) == Ids(ts[..i]) + {ts[i].id}
  {
    assert forall k :: 0 <= k < i ==> ts[..i + 1][k] == ts[..i][k];
    assert ts[..i + 1][i] == ts[i];
  }

  lemma CleanExtend(ts: seq<TraderConfig>, i: nat)
    requires i < |ts| && Clean(ts[..i])
    requires ts[i].id !in Ids(ts[..i]) && ValidateTrader(ts[i]).Ok?
    ensures Clean(ts[..i + 1])
  {
    var p := ts[..i + 1];
    forall a, b | 0 <= a < b < |p| ensures p[a].id != p[b].id {
      if b == i {
        assert p[a] == ts[..i][a];
      } else {
        assert p[a] == ts[..i][a] && p[b] == ts[..i][b];
      }
    }
    forall a | 0 <= a < |p| ensures ValidateTrader(p[a]).Ok? {
      if a < i { assert p[a] == ts[..i][a]; }
    }
  }

  /** Scans the traders from index `i`, the ones before it being clean. */
  function ScanFrom(ts: seq<TraderConfig>, i: nat): (r: Result<(), ConfigError>)
    requires i <= |ts| && Clean(ts[..i])
    ensures r.Ok? <==> Clean(ts)
    ensures r.Err? ==> !r.error.NoTraders? && r.error.index >= i && ReportedAt(ts, r.error)
    decreases |ts| - i
  {
    if i == |ts| then
      assert ts[..i] == ts;
      Ok(())
    else if ts[i].id in Ids(ts[..i]) then
      var j :| 0 <= j < i && ts[..i][j].id == ts[i].id;
      assert ts[j].id == ts[i].id;
      Err(DuplicateId(ts[i].id, i))
    else if ValidateTrader(ts[i]).Err? then
      assert !AllTradersValid(ts);
      assert forall j :: 0 <= j < i ==> ts[j].id != ts[i].id by {
        forall j | 0 <= j < i ensures ts[j].id != ts[i].id {
          assert ts[..i][j] == ts[j];
        }
      }
      Err(TraderInvalid(i, ts[i].id, ValidateTrader(ts[i]).error))
    else
      CleanExtend(ts, i);
      var r := ScanFrom(ts, i + 1);
      r
  }

  /** `Config::validate`: at least one trader, then the traders in order,
      each first checked for a repeated id and then validated on its own;
      the first problem found is reported. */
  function ValidateConfig(c: Config): (r: Result<(), ConfigError>)
    ensures r.Ok? <==> |c.traders| > 0 && DistinctIds(c.traders) && AllTradersValid(c.traders)
    ensures r.Err? ==> ReportedAt(c.traders, r.error)
  {
    if |c.traders| == 0 then Err(NoTraders)
    else
      assert c.traders[..0] == [];
      ScanFrom(c.traders, 0)
  }

  /** The reported error is determined: no other index could be reported,
      since everything before it is clean. */
  lemma ReportedAtUnique(ts: seq<TraderConfig>, e1: ConfigError, e2: ConfigError)
    requires ReportedAt(ts, e1) && ReportedAt(ts, e2)
    ensures e1 == e2
  {
    if !e1.NoTraders? && !e2.NoTraders? {
      if e1.index < e2.index {
        assert ts[..e2.index][e1.index] == ts[e1.index];
        ProblemAtIndexNotClean(ts, e1, e2.index);
      } else if e2.index < e1.index {
        ProblemAtIndexNotClean(ts, e2, e1.index);
      }
    }
  }

  /** A reported problem at index k makes every prefix reaching past k
      unclean. */
  lemma ProblemAtIndexNotClean(ts: seq<TraderConfig>, e: ConfigError, m: nat)
    requires ReportedAt(ts, e) && !e.NoTraders? && e.index < m <= |ts|
    ensures !Clean(ts[..m])
  {
    var k := e.index;
    var p := ts[..m];
    assert p[k] == ts[k];
    if e.DuplicateId? {
      var j :| 0 <= j < k && ts[j].id == e.id;
      assert p[j] == ts[j];
      assert p[j].id == p[k].id;
    } else {
      assert !ValidateTrader(p[k]).Ok?;
    }
  }

  /** The validation loop as the source writes it, with a set of the ids
      seen so far. */
  method CheckConfig(c: Config) returns (r: Result<(), ConfigError>)
    ensures r == ValidateConfig(c)
  {
    var ts := c.traders;
    if |ts| == 0 {
      return Err(NoTraders);
    }
    var seen: set<string> := {};
    var i := 0;
    assert ts[..0] == [];
    while i < |ts|
      invariant 0 <= i <= |ts|
      invariant Clean(ts[..i])
      invariant seen == Ids(ts[..i])
      invariant ScanFrom(ts, i) == ValidateConfig(c)
      decreases |ts| - i
    {
      var t := ts[i];
      if t.id in seen {
        return Err(DuplicateId(t.id, i));
      }
      var v := ValidateTrader(t);
      if v.Err? {
        return Err(TraderInvalid(i, t.id, v.error));
      }
      IdsExtend(ts, i);
      CleanExtend(ts, i);
      seen := seen + {t.id};
      i := i + 1;
    }
    assert ts[..i] == ts;
    return Ok(());
  }

  // ---------------------------------------------------------------------
  // Loading
  // ---------------------------------------------------------------------

  /** When default coins are in use but the list is empty, the default
      list is put in; nothing else changes. */
  function FillDefaultCoins(c: Config): (r: Config)
    ensures r == c.(defaultCoins := r.defaultCoins)
    ensures r.useDefaultCoins ==> r.defaultCoins != []
    ensures c.defaultCoins != [] || !c.useDefaultCoins ==> r == c
    ensures c.useDefaultCoins && c.defaultCoins == [] ==> r.defaultCoins == DefaultCoinList()
  {
    if c.useDefaultCoins && c.defaultCoins == [] then c.(defaultCoins := DefaultCoinList()) else c
  }

  /** Filling is idempotent and does not change the validation verdict. */
  lemma FillDefaultCoinsStable(c: Config)
    ensures FillDefaultCoins(FillDefaultCoins(c)) == FillDefaultCoins(c)
    ensures ValidateConfig(FillDefaultCoins(c)) == ValidateConfig(c)
  {
  }

  datatype LeverageWarning = BtcEthAboveFive(leverage: int) | AltcoinAboveFive(leverage: int)

  /** `check_warnings`: one warning per leverage above 5, BTC/ETH first. */
  function LeverageWarnings(l: LeverageConfig): (ws: seq<LeverageWarning>)
    ensures BtcEthAboveFive(l.btcEthLeverage) in ws <==> l.btcEthLeverage > 5
    ensures AltcoinAboveFive(l.altcoinLeverage) in ws <==> l.altcoinLeverage > 5
    ensures |ws| == (if l.btcEthLeverage > 5 then 1 else 0) + (if l.altcoinLeverage > 5 then 1 else 0)
    ensures |ws| == 2 ==> ws[0].BtcEthAboveFive?
    ensures forall w :: w in ws ==> w == BtcEthAboveFive(l.btcEthLeverage) || w == AltcoinAboveFive(l.altcoinLeverage)
  {
    (if l.btcEthLeverage > 5 then [BtcEthAboveFive(l.btcEthLeverage)] else [])
      + (if l.altcoinLeverage > 5 then [AltcoinAboveFive(l.altcoinLeverage)] else [])
  }

  datatype Loaded = Loaded(config: Config, warnings: seq<LeverageWarning>)

  /** `load_config` after decoding: fill the default coins, validate, and
      on success report the leverage warnings. */
  function LoadConfig(decoded: Config): (r: Result<Loaded, ConfigError>)
    ensures r.Ok? <==> ValidateConfig(decoded).Ok?
    ensures r.Err? ==> r.error == ValidateConfig(decoded).error
    ensures r.Ok? ==> r.value.config == FillDefaultCoins(decoded)
    ensures r.Ok? ==> r.value.config.traders == decoded.traders
    ensures r.Ok? && r.value.config.useDefaultCoins ==> r.value.config.defaultCoins != []
    ensures r.Ok? ==> r.value.warnings == LeverageWarnings(decoded.leverage)
  {
    var c := FillDefaultCoins(decoded);
    FillDefaultCoinsStable(decoded);
    match ValidateConfig(c)
    case Err(e) => Err(e)
    case Ok(_) => Ok(Loaded(c, LeverageWarnings(c.leverage)))
  }

  /** The default configuration has no trader and so is rejected. */
  lemma DefaultConfigRejected()
    ensures LoadConfig(DefaultConfig()) == Err(NoTraders)
  {
  }
}
