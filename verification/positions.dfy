/** Trade reconstruction from the decision ledger: the position side
    parser, the book of open positions keyed by symbol and side, settling a
    close against its open, and replaying a window of records after
    priming the book with earlier history. */
module Positions {
  import opened Wrappers
  import opened Text
  import opened Ledger
  import Indicators

  // ---------------------------------------------------------------------
  // Sides
  // ---------------------------------------------------------------------

  /** A position side; the default is `Short`. */
  datatype Side = Short | Long

  function SideName(s: Side): string
  {
    match s
    case Long => "long"
    case Short => "short"
  }

  /** `Side::from_str`: case-insensitive `"short"` or `"long"`. Lower-casing
      is modelled on ASCII letters; no other character lower-cases to one
      of the letters of "short" or "long", so the accepted set is exact. */
  function SideFromStr(s: string): (r: Result<Side, ()>)
    ensures r.Ok? <==> ToLower(s) == "short" || ToLower(s) == "long"
  {
    var l := ToLower(s);
    if l == "short" then Ok(Short)
    else if l == "long" then Ok(Long)
    else Err(())
  }

  /** Parsing inverts naming, in any letter case, and every accepted text
      is a spelling of the name of the side it yields. */
  lemma SideFromStrRoundTrip(side: Side, s: string)
    ensures SideFromStr(SideName(side)) == Ok(side)
    ensures SideFromStr(ToUpper(SideName(side))) == Ok(side)
    ensures SideFromStr(s) == Ok(side) ==> ToLower(s) == SideName(side)
  {
    var u := ToUpper(SideName(side));
    assert ToLower(u) == SideName(side);
  }

  /** The side an action refers to, as the priming pass maps it. */
  function ActionSide(a: Action): (s: Side)
    ensures s == Long <==> a == OpenLong || a == CloseLong
  {
    if a == OpenLong || a == CloseLong then Long else Short
  }

  // ---------------------------------------------------------------------
  // Position keys
  // ---------------------------------------------------------------------

  /** `format!("{}_{}", symbol, side)`. */
  function PosKey(symbol: string, sideText: string): string
  {
    symbol + "_" + sideText
  }

  /** The side texts that ever reach a key: the two names, and the empty
      text of the window pass as written. */
  predicate KeySideText(t: string)
  {
    t == "long" || t == "short" || t == ""
  }

  /** Distinct (symbol, side text) pairs give distinct keys, so the book
      may be keyed by the pair itself. */
  lemma PosKeyInjective(s1: string, t1: string, s2: string, t2: string)
    requires KeySideText(t1) && KeySideText(t2)
    requires PosKey(s1, t1) == PosKey(s2, t2)
    ensures s1 == s2 && t1 == t2
  {
    var k := PosKey(s1, t1);
    assert k == PosKey(s2, t2);
    var last := k[|k| - 1];
    assert t1 == "long" ==> last == 'g';
    assert t1 == "short" ==> last == 't';
    assert t1 == "" ==> last == '_';
    assert t2 == "long" ==> last == 'g';
    assert t2 == "short" ==> last == 't';
    assert t2 == "" ==> last == '_';
    assert t1 == t2;
    assert s1 == k[..|s1|];
    assert s2 == k[..|s2|];
  }

  // ---------------------------------------------------------------------
  // Open positions and settled trades
  // ---------------------------------------------------------------------

  datatype OpenPosition = OpenPosition(side: Side, openPrice: real, openTime: DateTime, quantity: real, leverage: int)

  /** Open positions keyed by (symbol, side text). */
  type Book = map<(string, string), OpenPosition>

  datatype TradeOutcome = TradeOutcome(
    symbol: string,
    side: Side,
    quantity: real,
    leverage: int,
    openPrice: real,
    closePrice: real,
    positionValue: real,
    marginUsed: real,
    pnl: real,
    pnlPct: real,
    openTime: DateTime,
    closeTime: DateTime)

  /** +1 for a long, -1 for a short: the sign with which a price rise
      turns into profit. */
  function Direction(s: Side): real
  {
    if s == Long then 1.0 else -1.0
  }

  /** Settles an open position at `closePrice`. Margin is the position
      value over the leverage; the percentage is taken relative to the
      margin and is 0 unless the margin is positive. */
  function Settle(pos: OpenPosition, symbol: string, closePrice: real, closeTime: DateTime): (t: TradeOutcome)
    ensures t.pnl == Direction(pos.side) * pos.quantity * (closePrice - pos.openPrice)
    ensures t.positionValue == pos.quantity * pos.openPrice
    ensures pos.leverage != 0 ==> t.marginUsed * (pos.leverage as real) == t.positionValue
    ensures t.marginUsed > 0.0 ==> t.pnlPct * t.marginUsed == 100.0 * t.pnl
    ensures t.marginUsed <= 0.0 ==> t.pnlPct == 0.0
    ensures t.symbol == symbol && t.side == pos.side && t.quantity == pos.quantity && t.leverage == pos.leverage
    ensures t.openPrice == pos.openPrice && t.closePrice == closePrice
    ensures t.openTime == pos.openTime && t.closeTime == closeTime
  {
    var q := pos.quantity;
    var pnl := if pos.side == Long then q * (closePrice - pos.openPrice) else q * (pos.openPrice - closePrice);
    var value := q * pos.openPrice;
    var margin := if pos.leverage == 0 then 0.0 else value / (pos.leverage as real);
    var pct := if margin > 0.0 then pnl / margin * 100.0 else 0.0;
    TradeOutcome(symbol, pos.side, q, pos.leverage, pos.openPrice, closePrice, value, margin, pnl, pct,
                 pos.openTime, closeTime)
  }

  /** With a positive quantity a trade wins exactly when the price moved
      in its direction; with positive leverage and value the percentage
      has the sign of the profit. */
  lemma SettleSign(pos: OpenPosition, symbol: string, closePrice: real, closeTime: DateTime)
    requires pos.quantity > 0.0
    ensures var t := Settle(pos, symbol, closePrice, closeTime);
      t.pnl > 0.0 <==> (pos.side == Long && closePrice > pos.openPrice) || (pos.side == Short && closePrice < pos.openPrice)
    ensures var t := Settle(pos, symbol, closePrice, closeTime);
      pos.leverage > 0 && pos.openPrice > 0.0 ==> (t.pnlPct > 0.0 <==> t.pnl > 0.0)
  {
    var t := Settle(pos, symbol, closePrice, closeTime);
    var d := closePrice - pos.openPrice;
    if pos.side == Long {
      assert t.pnl == pos.quantity * d;
    } else {
      assert t.pnl == pos.quantity * (-d);
    }
    if pos.leverage > 0 && pos.openPrice > 0.0 {
      var lev := pos.leverage as real;
      assert t.positionValue > 0.0;
      assert t.marginUsed * lev == t.positionValue;
      Indicators.FactorPositive(t.marginUsed, lev);
      assert t.pnlPct * t.marginUsed == 100.0 * t.pnl;
      if t.pnlPct > 0.0 {
        assert t.pnl > 0.0;
      }
      if t.pnl > 0.0 {
        Indicators.FactorPositive(t.pnlPct, t.marginUsed);
      }
    }
  }

  // ---------------------------------------------------------------------
  // Replaying actions: the corrected pass (see Findings in the README)
  // ---------------------------------------------------------------------

  datatype Replayed = Replayed(book: Book, trades: seq<TradeOutcome>)

  function Start(): Replayed { Replayed(map[], []) }

  function KeyOf(a: DecisionAction): (string, string)
  {
    (a.symbol, SideName(ActionSide(a.action)))
  }

  /** One action: failed actions are skipped; an open records (or
      replaces) the position under its key; a close settles and removes a
      matching position, and is a no-op when none is open. */
  function Step(st: Replayed, a: DecisionAction): (r: Replayed)
    ensures !a.success ==> r == st
    ensures |st.trades| <= |r.trades| <= |st.trades| + 1 && r.trades[..|st.trades|] == st.trades
    ensures |r.trades| > |st.trades| ==> !IsOpen(a.action) && KeyOf(a) in st.book && KeyOf(a) !in r.book
    ensures a.success && IsOpen(a.action) ==> KeyOf(a) in r.book && r.book[KeyOf(a)].openPrice == a.price
    ensures a.success && !IsOpen(a.action) && KeyOf(a) !in st.book ==> r == st
    ensures a.success && !IsOpen(a.action) && KeyOf(a) in st.book ==>
      r.trades == st.trades + [Settle(st.book[KeyOf(a)], a.symbol, a.price, a.timestamp)] && KeyOf(a) !in r.book
    ensures forall k :: k != KeyOf(a) ==> (k in r.book <==> k in st.book) && (k in st.book ==> r.book[k] == st.book[k])
  {
    if !a.success then st
    else
      var key := KeyOf(a);
      if IsOpen(a.action) then
        Replayed(st.book[key := OpenPosition(ActionSide(a.action), a.price, a.timestamp, a.quantity, a.leverage)], st.trades)
      else if key in st.book then
        Replayed(st.book - {key}, st.trades + [Settle(st.book[key], a.symbol, a.price, a.timestamp)])
      else st
  }

  function Replay(st: Replayed, acts: seq<DecisionAction>): (r: Replayed)
    ensures |st.trades| <= |r.trades| <= |st.trades| + |acts|
    ensures r.trades[..|st.trades|] == st.trades
    decreases |acts|
  {
    if |acts| == 0 then st else Step(Replay(st, acts[..|acts| - 1]), acts[|acts| - 1])
  }

  lemma {:induction false} ReplayAppend(st: Replayed, a: seq<DecisionAction>, b: seq<DecisionAction>)
    ensures Replay(st, a + b) == Replay(Replay(st, a), b)
    decreases |b|
  {
    if |b| == 0 {
      assert a + b == a;
    } else {
      assert (a + b)[..|a + b| - 1] == a + b[..|b| - 1];
      assert (a + b)[|a + b| - 1] == b[|b| - 1];
      ReplayAppend(st, a, b[..|b| - 1]);
    }
  }

  /** Every open position sits under the key naming its own side. */
  predicate Consistent(book: Book)
  {
    forall k :: k in book ==> k.1 == SideName(book[k].side)
  }

  /** Replaying keeps the book consistent, only appends to the settled
      trades, and settles at most one trade per successful close. */
  lemma {:induction false} ReplayInvariant(st: Replayed, acts: seq<DecisionAction>)
    requires Consistent(st.book)
    ensures Consistent(Replay(st, acts).book)
    ensures |st.trades| <= |Replay(st, acts).trades|
    ensures Replay(st, acts).trades[..|st.trades|] == st.trades
    ensures |Replay(st, acts).trades| - |st.trades| <= CountSuccessful(acts, false)
    decreases |acts|
  {
    if |acts| > 0 {
      var init := acts[..|acts| - 1];
      var a := acts[|acts| - 1];
      ReplayInvariant(st, init);
      CountSuccessfulSnoc(init, a);
      assert acts == init + [a];
      var mid := Replay(st, init);
      assert mid.trades[..|st.trades|] == st.trades;
    }
  }

  lemma {:induction false} CountSuccessfulSnoc(acts: seq<DecisionAction>, a: DecisionAction)
    ensures CountSuccessful(acts + [a], false) ==
      CountSuccessful(acts, false) + (if a.success && !IsOpen(a.action) then 1 else 0)
    decreases |acts|
  {
    if |acts| == 0 {
      assert [a][1..] == [];
    } else {
      assert (acts + [a])[1..] == acts[1..] + [a];
      CountSuccessfulSnoc(acts[1..], a);
    }
  }

  /** Failed actions have no effect on the replay. */
  lemma {:induction false} FailedActionsIgnored(st: Replayed, acts: seq<DecisionAction>)
    ensures Replay(st, acts) == Replay(st, Succeeded(acts))
    decreases |acts|
  {
    if |acts| > 0 {
      var init := acts[..|acts| - 1];
      var a := acts[|acts| - 1];
      assert acts[..|acts| - 1] == init;
      FailedActionsIgnored(st, init);
      var s := Succeeded(acts);
      if a.success {
        assert s == Succeeded(init) + [a];
        assert s[..|s| - 1] == Succeeded(init);
        assert s[|s| - 1] == a;
      } else {
        assert s == Succeeded(init);
      }
    }
  }

  function Succeeded(acts: seq<DecisionAction>): (r: seq<DecisionAction>)
    ensures forall i :: 0 <= i < |r| ==> r[i].success
    decreases |acts|
  {
    if |acts| == 0 then []
    else Succeeded(acts[..|acts| - 1]) + (if acts[|acts| - 1].success then [acts[|acts| - 1]] else [])
  }

  /** An open followed by a close of the same symbol and side settles
      exactly one trade at the open's price and leaves no position under
      that key, whatever the book held before. */
  lemma OpenThenCloseSettles(st: Replayed, o: DecisionAction, c: DecisionAction)
    requires o.success && c.success && IsOpen(o.action) && !IsOpen(c.action)
    requires o.symbol == c.symbol && ActionSide(o.action) == ActionSide(c.action)
    ensures var r := Replay(st, [o, c]);
      && r.trades == st.trades + [Settle(OpenPosition(ActionSide(o.action), o.price, o.timestamp, o.quantity, o.leverage),
                                         c.symbol, c.price, c.timestamp)]
      && KeyOf(c) !in r.book
      && r.book.Keys == st.book.Keys - {KeyOf(c)}
      && (forall k :: k in r.book ==> r.book[k] == st.book[k])
  {
    var s1 := Step(st, o);
    var s2 := Step(s1, c);
    assert [o, c][..1] == [o];
    assert [o][..0] == [];
    assert Replay(st, [o]) == s1;
    assert Replay(st, [o, c]) == s2;
    assert KeyOf(o) == KeyOf(c);
  }

  /** Long 2 units at 100 with leverage 5, closed at 110: profit 20 on a
      value of 200 and a margin of 40, that is 50 percent. */
  lemma LongRoundTripExample(st: Replayed, t0: DateTime, t1: DateTime)
    requires ("BTCUSDT", "long") !in st.book
    ensures var o := DecisionAction(OpenLong, "BTCUSDT", 2.0, 5, 100.0, 1, t0, true, "");
      var c := DecisionAction(CloseLong, "BTCUSDT", 2.0, 5, 110.0, 2, t1, true, "");
      var r := Replay(st, [o, c]);
      && |r.trades| == |st.trades| + 1
      && r.trades[|st.trades|].pnl == 20.0
      && r.trades[|st.trades|].positionValue == 200.0
      && r.trades[|st.trades|].marginUsed == 40.0
      && r.trades[|st.trades|].pnlPct == 50.0
      && r.book == st.book
  {
    var o := DecisionAction(OpenLong, "BTCUSDT", 2.0, 5, 100.0, 1, t0, true, "");
    var c := DecisionAction(CloseLong, "BTCUSDT", 2.0, 5, 110.0, 2, t1, true, "");
    OpenThenCloseSettles(st, o, c);
    var r := Replay(st, [o, c]);
    var t := Settle(OpenPosition(Long, 100.0, t0, 2.0, 5), "BTCUSDT", 110.0, t1);
    assert r.trades == st.trades + [t];
    SettleExample(t0, t1);
    assert r.book.Keys == st.book.Keys;
  }

  lemma SettleExample(t0: DateTime, t1: DateTime)
    ensures var t := Settle(OpenPosition(Long, 100.0, t0, 2.0, 5), "BTCUSDT", 110.0, t1);
      t.pnl == 20.0 && t.positionValue == 200.0 && t.marginUsed == 40.0 && t.pnlPct == 50.0
  {
  }

  // ---------------------------------------------------------------------
  // Records
  // ---------------------------------------------------------------------

  /** All actions of the records, record by record. */
  function Actions(records: seq<DecisionRecord>): seq<DecisionAction>
    decreases |records|
  {
    if |records| == 0 then [] else Actions(records[..|records| - 1]) + records[|records| - 1].decisions
  }

  lemma {:induction false} ActionsAppend(a: seq<DecisionRecord>, b: seq<DecisionRecord>)
    ensures Actions(a + b) == Actions(a) + Actions(b)
    decreases |b|
  {
    if |b| == 0 {
      assert a + b == a;
    } else {
      assert (a + b)[..|a + b| - 1] == a + b[..|b| - 1];
      ActionsAppend(a, b[..|b| - 1]);
    }
  }

  /** The book as it stood before the window: replay of the records that
      precede it in the wider history. */
  function PrimedBook(all: seq<DecisionRecord>, window: seq<DecisionRecord>): Book
    requires |window| <= |all|
  {
    Replay(Start(), Actions(all[..|all| - |window|])).book
  }

  /** Trades settled inside the window, closes matched against positions
      opened in the window or before it. */
  function WindowTrades(all: seq<DecisionRecord>, window: seq<DecisionRecord>): (ts: seq<TradeOutcome>)
    requires |window| <= |all|
    ensures |ts| <= |Actions(window)|
  {
    Replay(Replayed(PrimedBook(all, window), []), Actions(window)).trades
  }

  /** When the window is the tail of the wider history, its trades are
      exactly those a continuous replay of the whole history settles after
      the records preceding the window. */
  lemma WindowTradesMatchContinuousReplay(all: seq<DecisionRecord>, window: seq<DecisionRecord>)
    requires |window| <= |all| && all[|all| - |window|..] == window
    ensures var before := Replay(Start(), Actions(all[..|all| - |window|]));
      Replay(Start(), Actions(all)).trades == before.trades + WindowTrades(all, window)
  {
    var prefix := all[..|all| - |window|];
    assert all == prefix + window;
    ActionsAppend(prefix, window);
    var before := Replay(Start(), Actions(prefix));
    ReplayAppend(Start(), Actions(prefix), Actions(window));
    TradesShift(before.book, before.trades, Actions(window));
  }

  /** Trades settled by a replay do not depend on those settled before. */
  lemma {:induction false} TradesShift(book: Book, earlier: seq<TradeOutcome>, acts: seq<DecisionAction>)
    ensures Replay(Replayed(book, earlier), acts).trades == earlier + Replay(Replayed(book, []), acts).trades
    ensures Replay(Replayed(book, earlier), acts).book == Replay(Replayed(book, []), acts).book
    decreases |acts|
  {
    if |acts| > 0 {
      TradesShift(book, earlier, acts[..|acts| - 1]);
    }
  }

  /** The trade reconstruction of `analyze_performance`: the window of the
      last `n` records, primed with the records before it among the last
      `3n`. An empty window yields no trades. */
  function ReconstructTrades(dir: seq<Entry>, n: nat): (ts: seq<TradeOutcome>)
    ensures LatestRecords(dir, n) == [] ==> ts == []
  {
    var window := LatestRecords(dir, n);
    if |window| == 0 then []
    else
      var all := LatestRecords(dir, 3 * n);
      WindowIsSuffix(dir, n, 3 * n);
      WindowTrades(all, window)
  }

  /** `ts` is what a continuous replay of `all` settles after its first
      `|all| - |window|` records. */
  predicate ContinuousTail(all: seq<DecisionRecord>, window: seq<DecisionRecord>, ts: seq<TradeOutcome>)
  {
    |window| <= |all| &&
    Replay(Start(), Actions(all)).trades == Replay(Start(), Actions(all[..|all| - |window|])).trades + ts
  }

  /** The reconstructed trades are the window part of a continuous replay
      of the last `3n` records. */
  lemma ReconstructTradesIsContinuous(dir: seq<Entry>, n: nat)
    ensures ContinuousTail(LatestRecords(dir, 3 * n), LatestRecords(dir, n), ReconstructTrades(dir, n))
  {
    var all, window, ts := LatestRecords(dir, 3 * n), LatestRecords(dir, n), ReconstructTrades(dir, n);
    ReconstructTradesUnfold(dir, n);
    ContinuousSplit(all, window, ts);
  }

  /** `window` is a suffix of `all` and `ts` is what the reconstruction
      settles for it. */
  predicate WindowOf(all: seq<DecisionRecord>, window: seq<DecisionRecord>, ts: seq<TradeOutcome>)
  {
    && |window| <= |all| && all[|all| - |window|..] == window
    && ts == if |window| == 0 then [] else WindowTrades(all, window)
  }

  lemma ReconstructTradesUnfold(dir: seq<Entry>, n: nat)
    ensures WindowOf(LatestRecords(dir, 3 * n), LatestRecords(dir, n), ReconstructTrades(dir, n))
  {
    WindowIsSuffix(dir, n, 3 * n);
  }

  lemma ContinuousSplit(all: seq<DecisionRecord>, window: seq<DecisionRecord>, ts: seq<TradeOutcome>)
    requires WindowOf(all, window, ts)
    ensures ContinuousTail(all, window, ts)
  {
    if |window| == 0 {
      assert all[..|all| - |window|] == all;
    } else {
      WindowTradesMatchContinuousReplay(all, window);
    }
  }

  // ---------------------------------------------------------------------
  // The reconstruction as written
  // ---------------------------------------------------------------------

  /** Priming as written: when the wider history is longer than the
      window it is replayed whole, the window included. */
  function PrimedBookAsWritten(all: seq<DecisionRecord>, window: seq<DecisionRecord>): (b: Book)
    ensures |all| <= |window| ==> b == map[]
    ensures |window| < |all| && all[|all| - |window|..] == window ==>
      b == Replay(Replayed(PrimedBook(all, window), []), Actions(window)).book
  {
    if |all| > |window| then
      PrimingIncludesWindow(all, window);
      Replay(Start(), Actions(all)).book
    else map[]
  }

  /** Replaying the whole history is replaying the window on top of the
      book the earlier records leave. */
  lemma PrimingIncludesWindow(all: seq<DecisionRecord>, window: seq<DecisionRecord>)
    requires |window| <= |all|
    ensures all[|all| - |window|..] == window ==>
      Replay(Start(), Actions(all)).book == Replay(Replayed(PrimedBook(all, window), []), Actions(window)).book
  {
    if all[|all| - |window|..] != window {
      return;
    }
    var prefix := all[..|all| - |window|];
    assert all == prefix + window;
    ActionsAppend(prefix, window);
    var before := Replay(Start(), Actions(prefix));
    ReplayAppend(Start(), Actions(prefix), Actions(window));
    TradesShift(before.book, before.trades, Actions(window));
  }

  /** The side text the window pass as written derives: both opens give
      "long", a short close "short", a long close the empty text. */
  function WindowSideTextAsWritten(a: Action): (t: string)
    ensures KeySideText(t)
  {
    if a == OpenLong || a == OpenShort then "long"
    else if a == OpenShort || a == CloseShort then "short"
    else ""
  }

  /** One action of the window pass as written: opens are recorded under
      the text above with side taken from that text; a close whose key is
      found is settled but the position is not removed. */
  function WindowStepAsWritten(st: Replayed, a: DecisionAction): (r: Replayed)
    ensures st.book.Keys <= r.book.Keys
    ensures |st.trades| <= |r.trades| <= |st.trades| + 1 && r.trades[..|st.trades|] == st.trades
  {
    if !a.success then st
    else
      var text := WindowSideTextAsWritten(a.action);
      var key := (a.symbol, text);
      if IsOpen(a.action) then
        Replayed(st.book[key := OpenPosition(if text == "long" then Long else Short, a.price, a.timestamp, a.quantity, a.leverage)],
                 st.trades)
      else if key in st.book then
        Replayed(st.book, st.trades + [Settle(st.book[key], a.symbol, a.price, a.timestamp)])
      else st
  }

  /** The window pass as written. It never removes a position, so every
      key of the starting book is still there at the end. */
  function WindowPassAsWritten(st: Replayed, acts: seq<DecisionAction>): (r: Replayed)
    ensures st.book.Keys <= r.book.Keys
    ensures |st.trades| <= |r.trades| <= |st.trades| + |acts|
    ensures r.trades[..|st.trades|] == st.trades
    decreases |acts|
  {
    if |acts| == 0 then st else WindowStepAsWritten(WindowPassAsWritten(st, acts[..|acts| - 1]), acts[|acts| - 1])
  }

  /** A record holding only the given decisions. */
  function RecordOf(decisions: seq<DecisionAction>, t: DateTime): DecisionRecord
  {
    DecisionRecord(t, 0, "", "", "", "", AccountSnapshot(0.0, 0.0, 0.0, 0, 0.0), [], [], decisions, [], true, "")
  }

  /** A short opened at 100 before the window and closed at 110 inside it.
      Priming as written replays the window too, so the close already
      removes the position from the primed book, and the window pass as
      written then finds nothing to settle. Priming with the earlier
      records only leaves the short open, and the close settles it at a
      loss of 10. */
  lemma PrimingCounterexample(t: DateTime)
    ensures var open := DecisionAction(OpenShort, "BTCUSDT", 1.0, 1, 100.0, 1, t, true, "");
      var close := DecisionAction(CloseShort, "BTCUSDT", 1.0, 1, 110.0, 2, t, true, "");
      var all := [RecordOf([open], t), RecordOf([close], t)];
      var window := all[1..];
      var asWritten := WindowPassAsWritten(Replayed(PrimedBookAsWritten(all, window), []), Actions(window)).trades;
      var intended := WindowTrades(all, window);
      && PrimedBookAsWritten(all, window) == map[]
      && asWritten == []
      && ("BTCUSDT", "short") in PrimedBook(all, window)
      && |intended| == 1 && intended[0].pnl == -10.0
  {
    var open := DecisionAction(OpenShort, "BTCUSDT", 1.0, 1, 100.0, 1, t, true, "");
    var close := DecisionAction(CloseShort, "BTCUSDT", 1.0, 1, 110.0, 2, t, true, "");
    var r1 := RecordOf([open], t);
    var r2 := RecordOf([close], t);
    var all := [r1, r2];
    var window := all[1..];
    var key := ("BTCUSDT", "short");
    var p100 := OpenPosition(Short, 100.0, t, 1.0, 1);
    assert window == [r2];
    assert all[..|all| - |window|] == [r1];
    SingleRecordActions(r1);
    SingleRecordActions(r2);
    assert Actions(all) == [open] + [close] by {
      assert all[..1] == [r1];
    }
    assert [open] + [close] == [open, close];
    // Priming as written replays the open and the close.
    var s1 := Step(Start(), open);
    assert s1.book == map[key := p100];
    var s2 := Step(s1, close);
    assert s2.book == map[];
    ReplayTwo(Start(), open, close);
    assert PrimedBookAsWritten(all, window) == map[];
    // The window pass as written on the empty book.
    WindowPassOne(Replayed(map[], []), close);
    // The corrected priming and window.
    ReplayOne(Start(), open);
    assert PrimedBook(all, window) == map[key := p100];
    ReplayOne(Replayed(map[key := p100], []), close);
  }

  lemma WindowPassOne(st: Replayed, a: DecisionAction)
    ensures WindowPassAsWritten(st, [a]) == WindowStepAsWritten(st, a)
  {
    assert [a][..0] == [];
  }

  lemma SingleRecordActions(r: DecisionRecord)
    ensures Actions([r]) == r.decisions
  {
    assert [r][..0] == [];
  }

  lemma ReplayOne(st: Replayed, a: DecisionAction)
    ensures Replay(st, [a]) == Step(st, a)
  {
    assert [a][..0] == [];
  }

  lemma ReplayTwo(st: Replayed, a: DecisionAction, b: DecisionAction)
    ensures Replay(st, [a, b]) == Step(Step(st, a), b)
  {
    assert [a, b][..1] == [a];
    ReplayOne(st, a);
  }

  /** A long opened and closed inside the window is never settled by the
      pass as written, because the close looks under the empty side text
      while the open was recorded under "long"; the intended pass settles
      it at a profit of 10. */
  lemma SideMappingCounterexample(t: DateTime)
    ensures var o := DecisionAction(OpenLong, "BTCUSDT", 1.0, 1, 100.0, 1, t, true, "");
      var c := DecisionAction(CloseLong, "BTCUSDT", 1.0, 1, 110.0, 2, t, true, "");
      && WindowPassAsWritten(Start(), [o, c]).trades == []
      && |Replay(Start(), [o, c]).trades| == 1
      && Replay(Start(), [o, c]).trades[0].pnl == 10.0
  {
    var o := DecisionAction(OpenLong, "BTCUSDT", 1.0, 1, 100.0, 1, t, true, "");
    var c := DecisionAction(CloseLong, "BTCUSDT", 1.0, 1, 110.0, 2, t, true, "");
    assert [o, c][..1] == [o];
    assert [o][..0] == [];
    var s1 := WindowStepAsWritten(Start(), o);
    assert WindowPassAsWritten(Start(), [o]) == s1;
    assert ("BTCUSDT", "") !in s1.book;
    assert WindowPassAsWritten(Start(), [o, c]) == WindowStepAsWritten(s1, c);
    ReplayTwo(Start(), o, c);
  }

  /** The reconstruction as the source writes it: as-written priming
      followed by the as-written window pass. */
  function ReconstructTradesAsWritten(dir: seq<Entry>, n: nat): (ts: seq<TradeOutcome>)
    ensures LatestRecords(dir, n) == [] ==> ts == []
  {
    var window := LatestRecords(dir, n);
    if |window| == 0 then []
    else
      var all := LatestRecords(dir, 3 * n);
      WindowPassAsWritten(Replayed(PrimedBookAsWritten(all, window), []), Actions(window)).trades
  }
}
