/** The decision ledger: record shapes, cycle stamping and file naming on
    append, name-ordered windowing of the log directory, and the counting
    done by the statistics scan. The directory is an explicit sequence of
    entries; file-system effects are not modelled. */
module Ledger {
  import opened Wrappers
  import opened Text

  const I32Max: int := 0x7FFF_FFFF

  // ---------------------------------------------------------------------
  // Record shapes
  // ---------------------------------------------------------------------

  /** A UTC instant broken into calendar fields. */
  datatype DateTime = DateTime(year: nat, month: nat, day: nat, hour: nat, minute: nat, second: nat, nanos: nat)

  /** Fields in range, and a four-digit year (what `%Y` prints unsigned). */
  predicate ValidDateTime(t: DateTime)
  {
    && t.year <= 9999 && 1 <= t.month <= 12 && 1 <= t.day <= 31
    && t.hour < 24 && t.minute < 60 && t.second < 60 && t.nanos < 1_000_000_000
  }

  datatype AccountSnapshot = AccountSnapshot(
    totalBalance: real,
    availableBalance: real,
    totalUnrealizedProfit: real,
    positionCount: int,
    marginUsedPct: real)

  datatype PositionSnapshot = PositionSnapshot(
    symbol: string,
    side: string,
    positionAmt: real,
    entryPrice: real,
    markPrice: real,
    unrealizedProfit: real,
    leverage: real,
    liquidationPrice: real)

  /** The four action kinds a decision may carry. */
  datatype Action = OpenShort | OpenLong | CloseShort | CloseLong

  predicate IsOpen(a: Action) { a == OpenLong || a == OpenShort }

  datatype DecisionAction = DecisionAction(
    action: Action,
    symbol: string,
    quantity: real,
    leverage: int,
    price: real,
    orderId: int,
    timestamp: DateTime,
    success: bool,
    error: string)

  datatype DecisionRecord = DecisionRecord(
    timestamp: DateTime,
    cycleNumber: int,
    systemPrompt: string,
    inputPrompt: string,
    cotTrace: string,
    decisionJson: string,
    accountState: AccountSnapshot,
    positions: seq<PositionSnapshot>,
    candidateCoins: seq<string>,
    decisions: seq<DecisionAction>,
    executionLog: seq<string>,
    success: bool,
    errorMessage: string)

  // ---------------------------------------------------------------------
  // File names: decision_YYYYMMDD_HHMMSS_cycleN.json
  // ---------------------------------------------------------------------

  /** `%Y%m%d_%H%M%S`. */
  function Stamp(t: DateTime): (s: string)
    requires ValidDateTime(t)
    ensures |s| == 15
  {
    Padded(t.year, 4) + Padded(t.month, 2) + Padded(t.day, 2) + "_"
      + Padded(t.hour, 2) + Padded(t.minute, 2) + Padded(t.second, 2)
  }

  function FileName(t: DateTime, cycle: nat): (name: string)
    requires ValidDateTime(t)
    ensures |name| == 35 + |Decimal(cycle)|
    ensures name[..9] == "decision_" && name[24..30] == "_cycle" && name[|name| - 5..] == ".json"
  {
    "decision_" + Stamp(t) + "_cycle" + Decimal(cycle) + ".json"
  }

  /** The fields a log file name carries. */
  datatype FileStamp = FileStamp(year: nat, month: nat, day: nat, hour: nat, minute: nat, second: nat, cycle: nat)

  /** Reads the calendar fields back from `YYYYMMDD_HHMMSS`. */
  function ParseStamp(s: string, cycle: nat): Option<FileStamp>
    requires |s| == 15
  {
    if s[8] == '_' && AllDigits(s[..8]) && AllDigits(s[9..]) then
      Some(FileStamp(ValueOf(s[0..4]), ValueOf(s[4..6]), ValueOf(s[6..8]),
                     ValueOf(s[9..11]), ValueOf(s[11..13]), ValueOf(s[13..15]), cycle))
    else None
  }

  /** Reads a log file name back into its stamp and cycle number. */
  function ParseFileName(name: string): Option<FileStamp>
  {
    if |name| < 36 then None
    else if name[..9] != "decision_" || name[24..30] != "_cycle" || name[|name| - 5..] != ".json" then None
    else if !AllDigits(name[30..|name| - 5]) then None
    else ParseStamp(name[9..24], ValueOf(name[30..|name| - 5]))
  }

  lemma AllDigitsSlice(s: string, i: nat, j: nat)
    requires AllDigits(s) && i <= j <= |s|
    ensures AllDigits(s[i..j])
  {
  }

  lemma ParseStampRoundTrip(t: DateTime, cycle: nat)
    requires ValidDateTime(t)
    ensures ParseStamp(Stamp(t), cycle) == Some(FileStamp(t.year, t.month, t.day, t.hour, t.minute, t.second, cycle))
  {
    var y, mo, d := Padded(t.year, 4), Padded(t.month, 2), Padded(t.day, 2);
    var h, mi, se := Padded(t.hour, 2), Padded(t.minute, 2), Padded(t.second, 2);
    StampSlices(t);
    AllDigitsConcat3(y, mo, d);
    AllDigitsConcat3(h, mi, se);
  }

  /** Where each field sits in a stamp. */
  lemma StampSlices(t: DateTime)
    requires ValidDateTime(t)
    ensures var s := Stamp(t);
      var y, mo, d := Padded(t.year, 4), Padded(t.month, 2), Padded(t.day, 2);
      var h, mi, se := Padded(t.hour, 2), Padded(t.minute, 2), Padded(t.second, 2);
      && s[0..4] == y && s[4..6] == mo && s[6..8] == d && s[8] == '_'
      && s[9..11] == h && s[11..13] == mi && s[13..15] == se
      && s[..8] == y + mo + d && s[9..] == h + mi + se
  {
    var y, mo, d := Padded(t.year, 4), Padded(t.month, 2), Padded(t.day, 2);
    var h, mi, se := Padded(t.hour, 2), Padded(t.minute, 2), Padded(t.second, 2);
    var s := Stamp(t);
    assert s == y + mo + d + "_" + h + mi + se;
    assert s[0..4] == y;
    assert s[4..6] == mo;
    assert s[6..8] == d;
    assert s[9..11] == h;
    assert s[11..13] == mi;
    assert s[13..15] == se;
    assert s[..8] == y + mo + d;
    assert s[9..] == h + mi + se;
  }

  lemma AllDigitsConcat3(a: string, b: string, c: string)
    requires AllDigits(a) && AllDigits(b) && AllDigits(c)
    ensures AllDigits(a + b + c)
  {
  }

  /** A file name gives back the timestamp fields and the cycle number it
      was built from. */
  lemma FileNameRoundTrip(t: DateTime, cycle: nat)
    requires ValidDateTime(t)
    ensures ParseFileName(FileName(t, cycle)) == Some(FileStamp(t.year, t.month, t.day, t.hour, t.minute, t.second, cycle))
  {
    var st := Stamp(t);
    var digits := Decimal(cycle);
    var name := FileName(t, cycle);
    assert name == "decision_" + st + "_cycle" + digits + ".json";
    assert |name| == 35 + |digits|;
    assert name[..9] == "decision_";
    assert name[9..24] == st;
    assert name[24..30] == "_cycle";
    assert name[30..|name| - 5] == digits;
    assert name[|name| - 5..] == ".json";
    ParseStampRoundTrip(t, cycle);
  }

  // ---------------------------------------------------------------------
  // Appending a record
  // ---------------------------------------------------------------------

  const DefaultLogDir: string := "decision_logs"

  /** The logger's state: its directory and the last cycle number issued. */
  datatype DecisionLogger = DecisionLogger(logDir: string, cycleNumber: int)

  /** `DecisionLogger::new`: an empty directory name means the default
      one; numbering starts at 0. */
  function NewLogger(logDir: string): (lg: DecisionLogger)
    ensures lg.cycleNumber == 0
    ensures lg.logDir != ""
    ensures logDir != "" ==> lg.logDir == logDir
    ensures logDir == "" ==> lg.logDir == DefaultLogDir
  {
    DecisionLogger(if logDir == "" then DefaultLogDir else logDir, 0)
  }

  datatype LogError = SerializeOrWriteFailed

  /** Result of one `log_decision` call: the updated logger, the stamped
      record, the file name, and whether persisting it succeeded. */
  datatype Logged = Logged(logger: DecisionLogger, record: DecisionRecord, fileName: string, outcome: Result<(), LogError>)

  /** `log_decision`: bumps the counter, stamps it and the clock reading
      `now` onto the record, and names the file after both. `written`
      stands for the outcome of serialising and writing the file; the
      counter and the record are updated before that and stay updated
      when it fails. The counter is an `i32` whose increment would
      overflow at its maximum. */
  function LogDecision(lg: DecisionLogger, rec: DecisionRecord, now: DateTime, written: bool): (out: Logged)
    requires 0 <= lg.cycleNumber < I32Max
    requires ValidDateTime(now)
    ensures out.logger == lg.(cycleNumber := lg.cycleNumber + 1)
    ensures out.record == rec.(cycleNumber := lg.cycleNumber + 1, timestamp := now)
    ensures ParseFileName(out.fileName) ==
      Some(FileStamp(now.year, now.month, now.day, now.hour, now.minute, now.second, out.record.cycleNumber))
    ensures out.outcome.Ok? <==> written
  {
    var cycle := lg.cycleNumber + 1;
    FileNameRoundTrip(now, cycle);
    Logged(lg.(cycleNumber := cycle), Stamped(lg, rec, now), FileName(now, cycle),
           if written then Ok(()) else Err(SerializeOrWriteFailed))
  }

  /** The record as `log_decision` stores it. */
  function Stamped(lg: DecisionLogger, rec: DecisionRecord, now: DateTime): DecisionRecord
  {
    rec.(cycleNumber := lg.cycleNumber + 1, timestamp := now)
  }

  predicate AllValid(times: seq<DateTime>)
  {
    forall i :: 0 <= i < |times| ==> ValidDateTime(times[i])
  }

  lemma AllValidTail(times: seq<DateTime>)
    requires |times| > 0 && AllValid(times)
    ensures ValidDateTime(times[0]) && AllValid(times[1..])
  {
    forall i | 0 <= i < |times[1..]| ensures ValidDateTime(times[1..][i]) {
      assert times[1..][i] == times[i + 1];
    }
  }

  /** Appends `recs` one after another, at clock readings `times`, each
      step storing what `LogDecision` stores (see `LogAllStep`). */
  function LogAll(lg: DecisionLogger, recs: seq<DecisionRecord>, times: seq<DateTime>): (DecisionLogger, seq<DecisionRecord>)
    requires |times| == |recs| && AllValid(times)
    requires 0 <= lg.cycleNumber && lg.cycleNumber + |recs| <= I32Max
    decreases |recs|
  {
    if |recs| == 0 then (lg, [])
    else
      AllValidTail(times);
      var rest := LogAll(lg.(cycleNumber := lg.cycleNumber + 1), recs[1..], times[1..]);
      (rest.0, [Stamped(lg, recs[0], times[0])] + rest.1)
  }

  /** Starting from a fresh logger, the k-th appended record carries cycle
      number k + 1: numbers are consecutive from 1 and strictly
      increasing, and the logger ends at the number of appends. */
  lemma {:induction false} CyclesAreConsecutive(lg: DecisionLogger, recs: seq<DecisionRecord>, times: seq<DateTime>)
    requires |times| == |recs| && AllValid(times)
    requires 0 <= lg.cycleNumber && lg.cycleNumber + |recs| <= I32Max
    ensures |LogAll(lg, recs, times).1| == |recs|
    ensures LogAll(lg, recs, times).0.cycleNumber == lg.cycleNumber + |recs|
    ensures forall k :: 0 <= k < |recs| ==> LogAll(lg, recs, times).1[k].cycleNumber == lg.cycleNumber + k + 1
    decreases |recs|
  {
    if |recs| > 0 {
      AllValidTail(times);
      var next := lg.(cycleNumber := lg.cycleNumber + 1);
      LogAllStep(lg, recs, times);
      CyclesAreConsecutive(next, recs[1..], times[1..]);
      var whole := LogAll(lg, recs, times).1;
      var tail := LogAll(next, recs[1..], times[1..]).1;
      forall k | 0 <= k < |recs| ensures whole[k].cycleNumber == lg.cycleNumber + k + 1 {
        if k > 0 {
          assert whole[k] == tail[k - 1];
        }
      }
    }
  }

  /** One append, then the rest. */
  lemma LogAllStep(lg: DecisionLogger, recs: seq<DecisionRecord>, times: seq<DateTime>)
    requires |times| == |recs| > 0 && AllValid(times) && AllValid(times[1..])
    requires 0 <= lg.cycleNumber && lg.cycleNumber + |recs| <= I32Max
    ensures var whole := LogAll(lg, recs, times);
      var tail := LogAll(lg.(cycleNumber := lg.cycleNumber + 1), recs[1..], times[1..]);
      whole.0 == tail.0 && |whole.1| > 0 && whole.1[1..] == tail.1 &&
      whole.1[0] == LogDecision(lg, recs[0], times[0], true).record
  {
    var tail := LogAll(lg.(cycleNumber := lg.cycleNumber + 1), recs[1..], times[1..]);
    assert LogAll(lg, recs, times) == (tail.0, [Stamped(lg, recs[0], times[0])] + tail.1);
  }

  // ---------------------------------------------------------------------
  // The log directory
  // ---------------------------------------------------------------------

  /** How a directory entry looks to the two scans: a regular file (read
      by both), another non-directory such as a link to a file (read by
      the statistics scan only, which tests `is_dir` on the path), or a
      directory or link to one (read by neither). Entries whose metadata
      cannot be read fall under the last kind: the statistics scan does try
      to read them, since `is_dir` is false for them, but that read fails
      as well, so they add nothing to either scan. */
  datatype EntryKind = RegularFile | OtherFile | DirectoryLike

  /** What reading and parsing an entry yields. `Corrupt` covers both an
      unreadable file and one that does not parse as a record. */
  datatype Content = Parsed(record: DecisionRecord) | Corrupt

  datatype Entry = Entry(name: string, kind: EntryKind, content: Content)

  /** Byte-wise order of file names (code-point order on UTF-8). */
  predicate NameLe(a: string, b: string)
    decreases |a|
  {
    if |a| == 0 then true
    else if |b| == 0 then false
    else if a[0] != b[0] then a[0] < b[0]
    else NameLe(a[1..], b[1..])
  }

  lemma {:induction false} NameLeTotal(a: string, b: string)
    ensures NameLe(a, b) || NameLe(b, a)
    decreases |a|
  {
    if |a| > 0 && |b| > 0 && a[0] == b[0] {
      NameLeTotal(a[1..], b[1..]);
    }
  }

  lemma {:induction false} NameLeTransitive(a: string, b: string, c: string)
    requires NameLe(a, b) && NameLe(b, c)
    ensures NameLe(a, c)
    decreases |a|
  {
    if |a| > 0 && |b| > 0 && |c| > 0 && a[0] == b[0] && b[0] == c[0] {
      NameLeTransitive(a[1..], b[1..], c[1..]);
    }
  }

  predicate SortedByName(es: seq<Entry>)
  {
    forall i, j :: 0 <= i < j < |es| ==> NameLe(es[i].name, es[j].name)
  }

  function Insert(e: Entry, sorted: seq<Entry>): (r: seq<Entry>)
    requires SortedByName(sorted)
    ensures SortedByName(r)
    ensures multiset(r) == multiset(sorted) + multiset{e}
    decreases |sorted|
  {
    if |sorted| == 0 then [e]
    else if NameLe(e.name, sorted[0].name) then
      BelowHeadBelowAll(e.name, sorted);
      ConsSorted(e, sorted);
      [e] + sorted
    else
      NameLeTotal(e.name, sorted[0].name);
      SortedSuffix(sorted, 1);
      var rest := Insert(e, sorted[1..]);
      assert sorted == [sorted[0]] + sorted[1..];
      HeadBelowAll(sorted);
      BoundKeptByInsert(sorted[0].name, e, sorted[1..], rest);
      ConsSorted(sorted[0], rest);
      [sorted[0]] + rest
  }

  /** A lower bound of a sorted list can be put in front of it. */
  lemma ConsSorted(h: Entry, rest: seq<Entry>)
    requires SortedByName(rest)
    requires forall j :: 0 <= j < |rest| ==> NameLe(h.name, rest[j].name)
    ensures SortedByName([h] + rest)
  {
    var r := [h] + rest;
    forall a, b | 0 <= a < b < |r| ensures NameLe(r[a].name, r[b].name) {
      assert r[b] == rest[b - 1];
      if a > 0 { assert r[a] == rest[a - 1]; }
    }
  }

  lemma BelowHeadBelowAll(a: string, sorted: seq<Entry>)
    requires SortedByName(sorted) && |sorted| > 0 && NameLe(a, sorted[0].name)
    ensures forall j :: 0 <= j < |sorted| ==> NameLe(a, sorted[j].name)
  {
    forall j | 0 <= j < |sorted| ensures NameLe(a, sorted[j].name) {
      if j > 0 { NameLeTransitive(a, sorted[0].name, sorted[j].name); }
    }
  }

  lemma HeadBelowAll(sorted: seq<Entry>)
    requires SortedByName(sorted) && |sorted| > 0
    ensures forall j :: 0 <= j < |sorted[1..]| ==> NameLe(sorted[0].name, sorted[1..][j].name)
  {
    forall j | 0 <= j < |sorted[1..]| ensures NameLe(sorted[0].name, sorted[1..][j].name) {
      assert sorted[1..][j] == sorted[1 + j];
    }
  }

  /** A lower bound on a list and on `e` bounds any permutation of the
      list with `e` added. */
  lemma BoundKeptByInsert(a: string, e: Entry, tail: seq<Entry>, rest: seq<Entry>)
    requires forall j :: 0 <= j < |tail| ==> NameLe(a, tail[j].name)
    requires NameLe(a, e.name)
    requires multiset(rest) == multiset(tail) + multiset{e}
    ensures forall j :: 0 <= j < |rest| ==> NameLe(a, rest[j].name)
  {
    forall j | 0 <= j < |rest| ensures NameLe(a, rest[j].name) {
      assert rest[j] in multiset(rest);
      if rest[j] != e {
        assert rest[j] in multiset(tail);
        var k :| 0 <= k < |tail| && tail[k] == rest[j];
      }
    }
  }

  /** `sort_by_key(file_name)`: the entries in ascending name order. */
  function SortByName(es: seq<Entry>): (r: seq<Entry>)
    ensures SortedByName(r)
    ensures multiset(r) == multiset(es)
    decreases |es|
  {
    if |es| == 0 then []
    else
      assert es == [es[0]] + es[1..];
      Insert(es[0], SortByName(es[1..]))
  }

  /** The entries that pass `file_type().is_file()`. */
  function RegularFiles(dir: seq<Entry>): (fs: seq<Entry>)
    ensures forall i :: 0 <= i < |fs| ==> fs[i].kind == RegularFile
    ensures multiset(fs) <= multiset(dir)
    decreases |dir|
  {
    if |dir| == 0 then []
    else
      assert dir == [dir[0]] + dir[1..];
      (if dir[0].kind == RegularFile then [dir[0]] else []) + RegularFiles(dir[1..])
  }

  /** The records of the entries that parse, in order; corrupt ones are
      skipped. */
  function ParsedRecords(es: seq<Entry>): (rs: seq<DecisionRecord>)
    ensures |rs| <= |es|
    decreases |es|
  {
    if |es| == 0 then []
    else (if es[0].content.Parsed? then [es[0].content.record] else []) + ParsedRecords(es[1..])
  }

  lemma {:induction false} ParsedRecordsAppend(a: seq<Entry>, b: seq<Entry>)
    ensures ParsedRecords(a + b) == ParsedRecords(a) + ParsedRecords(b)
    decreases |a|
  {
    if |a| > 0 {
      assert (a + b)[0] == a[0];
      assert (a + b)[1..] == a[1..] + b;
      ParsedRecordsAppend(a[1..], b);
    } else {
      assert a + b == b;
    }
  }

  /** Positions, in ascending order, of the entries that parse. */
  function ParsedPositions(es: seq<Entry>): seq<nat>
    decreases |es|
  {
    if |es| == 0 then []
    else (if es[0].content.Parsed? then [0] else []) + Shift(ParsedPositions(es[1..]))
  }

  function Shift(ps: seq<nat>): (qs: seq<nat>)
    ensures |qs| == |ps|
    ensures forall i :: 0 <= i < |ps| ==> qs[i] == ps[i] + 1
  {
    seq(|ps|, i requires 0 <= i < |ps| => ps[i] + 1)
  }

  /** `ps` lists, in ascending order, the positions of exactly the entries
      of `es` that parse, and `rs` holds their records in that order. */
  predicate Enumerates(es: seq<Entry>, ps: seq<nat>, rs: seq<DecisionRecord>)
  {
    && |ps| == |rs|
    && (forall i :: 0 <= i < |ps| ==> ps[i] < |es| && es[ps[i]].content == Parsed(rs[i]))
    && (forall i, j :: 0 <= i < j < |ps| ==> ps[i] < ps[j])
    && (forall k :: 0 <= k < |es| && es[k].content.Parsed? ==> k in ps)
  }

  /** The records are those of the entries that parse, one each, in the
      entries' order: the i-th record comes from the i-th parsing entry,
      and no parsing entry is passed over. */
  lemma {:induction false} ParsedRecordsEnumerate(es: seq<Entry>)
    ensures Enumerates(es, ParsedPositions(es), ParsedRecords(es))
    decreases |es|
  {
    if |es| > 0 {
      ParsedRecordsEnumerate(es[1..]);
      EnumeratesCons(es, ParsedPositions(es[1..]), ParsedRecords(es[1..]));
    }
  }

  lemma EnumeratesCons(es: seq<Entry>, ps': seq<nat>, rs': seq<DecisionRecord>)
    requires |es| > 0 && Enumerates(es[1..], ps', rs')
    ensures var h := es[0].content.Parsed?;
      Enumerates(es, (if h then [0] else []) + Shift(ps'), (if h then [es[0].content.record] else []) + rs')
  {
    var hd := es[0].content.Parsed?;
    var h := if hd then 1 else 0;
    var ps := (if h == 1 then [0] else []) + Shift(ps');
    var rs := (if h == 1 then [es[0].content.record] else []) + rs';
    EnumeratesConsContents(es, ps', rs', h, ps, rs);
    EnumeratesConsOrder(ps', h, ps);
    EnumeratesConsCovers(es, ps', h, ps);
  }

  lemma EnumeratesConsOrder(ps': seq<nat>, h: nat, ps: seq<nat>)
    requires h <= 1
    requires forall i, j :: 0 <= i < j < |ps'| ==> ps'[i] < ps'[j]
    requires ps == (if h == 1 then [0] else []) + Shift(ps')
    ensures forall i, j :: 0 <= i < j < |ps| ==> ps[i] < ps[j]
  {
    forall i, j | 0 <= i < j < |ps| ensures ps[i] < ps[j] {
      assert ps[j] == ps'[j - h] + 1;
      if i >= h { assert ps[i] == ps'[i - h] + 1; }
    }
  }

  lemma EnumeratesConsCovers(es: seq<Entry>, ps': seq<nat>, h: nat, ps: seq<nat>)
    requires |es| > 0
    requires forall k :: 0 <= k < |es[1..]| && es[1..][k].content.Parsed? ==> k in ps'
    requires h == (if es[0].content.Parsed? then 1 else 0)
    requires ps == (if h == 1 then [0] else []) + Shift(ps')
    ensures forall k :: 0 <= k < |es| && es[k].content.Parsed? ==> k in ps
  {
    forall k | 0 <= k < |es| && es[k].content.Parsed? ensures k in ps {
      if k == 0 {
        assert ps[0] == 0;
      } else {
        assert es[1..][k - 1] == es[k];
        var m :| 0 <= m < |ps'| && ps'[m] == k - 1;
        assert ps[m + h] == k;
      }
    }
  }

  lemma EnumeratesConsContents(es: seq<Entry>, ps': seq<nat>, rs': seq<DecisionRecord>, h: nat,
                               ps: seq<nat>, rs: seq<DecisionRecord>)
    requires |es| > 0 && |ps'| == |rs'|
    requires forall i :: 0 <= i < |ps'| ==> ps'[i] < |es[1..]| && es[1..][ps'[i]].content == Parsed(rs'[i])
    requires h == (if es[0].content.Parsed? then 1 else 0)
    requires ps == (if h == 1 then [0] else []) + Shift(ps')
    requires rs == (if h == 1 then [es[0].content.record] else []) + rs'
    ensures |ps| == |rs|
    ensures forall i :: 0 <= i < |ps| ==> ps[i] < |es| && es[ps[i]].content == Parsed(rs[i])
  {
    forall i | 0 <= i < |ps| ensures ps[i] < |es| && es[ps[i]].content == Parsed(rs[i]) {
      if i >= h {
        assert ps[i] == ps'[i - h] + 1 && rs[i] == rs'[i - h];
        assert es[ps[i]] == es[1..][ps'[i - h]];
      }
    }
  }

  /** A record is listed exactly when some entry parses to it. */
  lemma EnumeratedMembers(es: seq<Entry>, ps: seq<nat>, rs: seq<DecisionRecord>)
    requires Enumerates(es, ps, rs)
    ensures forall r :: r in rs <==> exists e :: e in es && e.content == Parsed(r)
  {
    forall r ensures r in rs <==> exists e :: e in es && e.content == Parsed(r) {
      if r in rs {
        var i :| 0 <= i < |rs| && rs[i] == r;
        assert es[ps[i]] in es;
      }
      if exists e :: e in es && e.content == Parsed(r) {
        var e :| e in es && e.content == Parsed(r);
        var k :| 0 <= k < |es| && es[k] == e;
        var i :| 0 <= i < |ps| && ps[i] == k;
        assert rs[i] == r;
      }
    }
  }

  function SaturatingSub(a: nat, b: nat): nat
  {
    if a >= b then a - b else 0
  }

  /** The last `n` regular files by name, ascending. */
  function LatestWindow(dir: seq<Entry>, n: nat): (w: seq<Entry>)
    ensures |w| <= n
    ensures forall i :: 0 <= i < |w| ==> w[i].kind == RegularFile
  {
    var files := SortByName(RegularFiles(dir));
    AllRegular(files, RegularFiles(dir), SaturatingSub(|files|, n));
    files[SaturatingSub(|files|, n)..]
  }

  /** Reordering a list of regular files and cutting it leaves regular
      files. */
  lemma AllRegular(a: seq<Entry>, b: seq<Entry>, start: nat)
    requires multiset(a) == multiset(b) && start <= |a|
    requires forall i :: 0 <= i < |b| ==> b[i].kind == RegularFile
    ensures forall i :: 0 <= i < |a[start..]| ==> a[start..][i].kind == RegularFile
  {
    forall i | 0 <= i < |a[start..]| ensures a[start..][i].kind == RegularFile {
      var x := a[start + i];
      assert x in multiset(a);
      assert x in multiset(b);
      var j :| 0 <= j < |b| && b[j] == x;
    }
  }

  /** `get_latest_records`: the records of the window, skipping corrupt
      files. */
  function LatestRecords(dir: seq<Entry>, n: nat): (rs: seq<DecisionRecord>)
    ensures |rs| <= n
  {
    ParsedRecords(LatestWindow(dir, n))
  }

  /** The records returned are exactly the contents of the window's files
      that parse, in the window's (ascending name) order; corrupt files
      are skipped. */
  lemma LatestRecordsContents(dir: seq<Entry>, n: nat)
    ensures Enumerates(LatestWindow(dir, n), ParsedPositions(LatestWindow(dir, n)), LatestRecords(dir, n))
    ensures forall r :: r in LatestRecords(dir, n) <==> exists e :: e in LatestWindow(dir, n) && e.content == Parsed(r)
  {
    var w := LatestWindow(dir, n);
    ParsedRecordsEnumerate(w);
    EnumeratedMembers(w, ParsedPositions(w), LatestRecords(dir, n));
  }

  /** The window holds min(n, number of regular files) files in ascending
      name order, and no regular file outside it has a larger name than
      a file inside it. */
  lemma LatestWindowSpec(dir: seq<Entry>, n: nat)
    ensures var files := RegularFiles(dir);
      |LatestWindow(dir, n)| == (if |files| < n then |files| else n)
    ensures SortedByName(LatestWindow(dir, n))
    ensures multiset(LatestWindow(dir, n)) <= multiset(RegularFiles(dir))
    ensures forall e, w :: e in multiset(RegularFiles(dir)) - multiset(LatestWindow(dir, n)) && w in LatestWindow(dir, n) ==>
      NameLe(e.name, w.name)
  {
    var files := SortByName(RegularFiles(dir));
    var start := SaturatingSub(|files|, n);
    assert |multiset(files)| == |multiset(RegularFiles(dir))|;
    SortedSplit(files, start);
  }

  /** Cutting a sorted list leaves a sorted tail whose every element is at
      least every element of the head, and splits its multiset. */
  lemma SortedSplit(files: seq<Entry>, start: nat)
    requires SortedByName(files) && start <= |files|
    ensures SortedByName(files[start..])
    ensures multiset(files) == multiset(files[..start]) + multiset(files[start..])
    ensures forall e, x :: e in multiset(files) - multiset(files[start..]) && x in files[start..] ==> NameLe(e.name, x.name)
  {
    var w := files[start..];
    assert files == files[..start] + w;
    SortedSuffix(files, start);
    forall e, x | e in multiset(files) - multiset(w) && x in w
      ensures NameLe(e.name, x.name)
    {
      assert e in multiset(files[..start]);
      var i :| 0 <= i < start && files[i] == e;
      var jj :| 0 <= jj < |w| && w[jj] == x;
      assert files[start + jj] == x;
    }
  }

  lemma SortedSuffix(files: seq<Entry>, start: nat)
    requires SortedByName(files) && start <= |files|
    ensures SortedByName(files[start..])
  {
    var w := files[start..];
    forall i, j | 0 <= i < j < |w| ensures NameLe(w[i].name, w[j].name) {
      assert w[i] == files[start + i] && w[j] == files[start + j];
    }
  }

  /** A narrower window's records are a suffix of a wider window's. */
  lemma WindowIsSuffix(dir: seq<Entry>, n: nat, m: nat)
    requires n <= m
    ensures var narrow := LatestRecords(dir, n);
      var wide := LatestRecords(dir, m);
      |narrow| <= |wide| && wide[|wide| - |narrow|..] == narrow
  {
    var files := SortByName(RegularFiles(dir));
    assert LatestRecords(dir, n) == ParsedRecords(files[SaturatingSub(|files|, n)..]);
    assert LatestRecords(dir, m) == ParsedRecords(files[SaturatingSub(|files|, m)..]);
    LaterCutIsSuffix(files, SaturatingSub(|files|, m), SaturatingSub(|files|, n));
  }

  lemma LaterCutIsSuffix(files: seq<Entry>, sm: nat, sn: nat)
    requires sm <= sn <= |files|
    ensures var narrow := ParsedRecords(files[sn..]);
      var wide := ParsedRecords(files[sm..]);
      |narrow| <= |wide| && wide[|wide| - |narrow|..] == narrow
  {
    assert files[sm..] == files[sm..sn] + files[sn..];
    ParsedRecordsAppend(files[sm..sn], files[sn..]);
  }

  /** When every file in the window parses, none is lost. */
  lemma CleanWindowKeepsAll(dir: seq<Entry>, n: nat)
    requires forall e :: e in LatestWindow(dir, n) ==> e.content.Parsed?
    ensures |LatestRecords(dir, n)| == |LatestWindow(dir, n)|
  {
    AllParsedKept(LatestWindow(dir, n));
  }

  lemma {:induction false} AllParsedKept(es: seq<Entry>)
    requires forall e :: e in es ==> e.content.Parsed?
    ensures |ParsedRecords(es)| == |es|
    decreases |es|
  {
    if |es| > 0 {
      assert es[0] in es;
      assert forall e :: e in es[1..] ==> e in es;
      AllParsedKept(es[1..]);
    }
  }

  // ---------------------------------------------------------------------
  // Statistics
  // ---------------------------------------------------------------------

  datatype Statistics = Statistics(
    totalCycles: nat,
    successfulCycles: nat,
    failedCycles: nat,
    totalOpenPositions: nat,
    totalClosePositions: nat)

  function Zero(): Statistics { Statistics(0, 0, 0, 0, 0) }

  function Plus(a: Statistics, b: Statistics): Statistics
  {
    Statistics(a.totalCycles + b.totalCycles, a.successfulCycles + b.successfulCycles,
               a.failedCycles + b.failedCycles, a.totalOpenPositions + b.totalOpenPositions,
               a.totalClosePositions + b.totalClosePositions)
  }

  /** Number of successful actions whose kind is an open (`opens`) or a
      close (`!opens`). */
  function CountSuccessful(acts: seq<DecisionAction>, opens: bool): nat
    decreases |acts|
  {
    if |acts| == 0 then 0
    else (if acts[0].success && IsOpen(acts[0].action) == opens then 1 else 0) + CountSuccessful(acts[1..], opens)
  }

  function SuccessCount(acts: seq<DecisionAction>): nat
    decreases |acts|
  {
    if |acts| == 0 then 0 else (if acts[0].success then 1 else 0) + SuccessCount(acts[1..])
  }

  /** Every successful action is counted exactly once, as an open or as a
      close; failed actions are not counted. */
  lemma {:induction false} CountsPartitionSuccessful(acts: seq<DecisionAction>)
    ensures CountSuccessful(acts, true) + CountSuccessful(acts, false) == SuccessCount(acts)
    decreases |acts|
  {
    if |acts| > 0 {
      CountsPartitionSuccessful(acts[1..]);
    }
  }

  /** What one entry adds to the statistics. */
  function EntryStatistics(e: Entry): Statistics
  {
    if e.kind == DirectoryLike || e.content.Corrupt? then Zero() else RecordStatistics(e.content.record)
  }

  /** What one readable record adds: a cycle, successful or failed, and its
      successful opens and closes. */
  function RecordStatistics(rec: DecisionRecord): Statistics
  {
    Statistics(1, if rec.success then 1 else 0, if rec.success then 0 else 1,
               CountSuccessful(rec.decisions, true), CountSuccessful(rec.decisions, false))
  }

  /** A contribution whose successes and failures add up to its cycles. */
  predicate Balanced(st: Statistics)
  {
    st.successfulCycles + st.failedCycles == st.totalCycles
  }

  /** What each entry contributes, in enumeration order. */
  function PerEntry(dir: seq<Entry>): (ss: seq<Statistics>)
    ensures |ss| == |dir|
    ensures forall i :: 0 <= i < |dir| ==> ss[i] == EntryStatistics(dir[i])
  {
    seq(|dir|, i requires 0 <= i < |dir| => EntryStatistics(dir[i]))
  }

  /** Adds up contributions, first to last. */
  function Tally(ss: seq<Statistics>): Statistics
    decreases |ss|
  {
    if |ss| == 0 then Zero() else Plus(Tally(ss[..|ss| - 1]), ss[|ss| - 1])
  }

  lemma {:induction false} TallyBounds(ss: seq<Statistics>)
    requires forall i :: 0 <= i < |ss| ==> Balanced(ss[i]) && ss[i].totalCycles <= 1
    ensures Balanced(Tally(ss)) && Tally(ss).totalCycles <= |ss|
    decreases |ss|
  {
    if |ss| > 0 {
      TallyBounds(ss[..|ss| - 1]);
    }
  }

  lemma {:induction false} TallyAppend(a: seq<Statistics>, b: seq<Statistics>)
    ensures Tally(a + b) == Plus(Tally(a), Tally(b))
    decreases |b|
  {
    if |b| == 0 {
      assert a + b == a;
      PlusZero(Tally(a));
    } else {
      var ab := a + b;
      var b' := b[..|b| - 1];
      assert ab[..|ab| - 1] == a + b';
      assert ab[|ab| - 1] == b[|b| - 1];
      TallyAppend(a, b');
      PlusAssociative(Tally(a), Tally(b'), b[|b| - 1]);
    }
  }

  /** `get_statistics`: scans the entries in enumeration order. */
  function GetStatistics(dir: seq<Entry>): (st: Statistics)
    ensures st.successfulCycles + st.failedCycles == st.totalCycles
    ensures st.totalCycles <= |dir|
  {
    TallyBounds(PerEntry(dir));
    Tally(PerEntry(dir))
  }

  lemma GetStatisticsAppend(a: seq<Entry>, b: seq<Entry>)
    ensures GetStatistics(a + b) == Plus(GetStatistics(a), GetStatistics(b))
  {
    PerEntryAppend(a, b);
    TallyAppend(PerEntry(a), PerEntry(b));
  }

  lemma PerEntryAppend(a: seq<Entry>, b: seq<Entry>)
    ensures PerEntry(a + b) == PerEntry(a) + PerEntry(b)
  {
    var l, r := PerEntry(a + b), PerEntry(a) + PerEntry(b);
    assert |l| == |r|;
    forall i | 0 <= i < |l|
      ensures l[i] == r[i]
    {
      assert (a + b)[i] == if i < |a| then a[i] else b[i - |a|];
    }
  }

  lemma TallyOne(e: Statistics)
    ensures Tally([e]) == e
  {
    assert [e][..0] == [];
  }

  lemma PlusZero(s: Statistics)
    ensures Plus(s, Zero()) == s
  {
  }

  lemma PlusAssociative(a: Statistics, b: Statistics, c: Statistics)
    ensures Plus(Plus(a, b), c) == Plus(a, Plus(b, c))
  {
  }

  /** The statistics do not depend on the order in which the directory
      lists its entries. */
  lemma {:induction false} StatisticsOrderIndependent(a: seq<Entry>, b: seq<Entry>)
    requires multiset(a) == multiset(b)
    ensures GetStatistics(a) == GetStatistics(b)
    decreases |a|
  {
    if |a| == 0 {
      assert |b| == |multiset(b)| == 0;
    } else {
      var x := a[|a| - 1];
      var a' := a[..|a| - 1];
      assert x in multiset(a);
      assert x in multiset(b);
      var k :| 0 <= k < |b| && b[k] == x;
      var b' := b[..k] + b[k + 1..];
      RemoveLast(a);
      RemoveAt(b, k);
      assert multiset(a') == multiset(b');
      StatisticsOrderIndependent(a', b');
      StatisticsAroundOne(b, k);
      LastStatistics(a);
    }
  }

  lemma LastStatistics(a: seq<Entry>)
    requires |a| > 0
    ensures GetStatistics(a) == Plus(GetStatistics(a[..|a| - 1]), EntryStatistics(a[|a| - 1]))
  {
    assert a == a[..|a| - 1] + [a[|a| - 1]];
    GetStatisticsAppend(a[..|a| - 1], [a[|a| - 1]]);
    SingleStatistics(a[|a| - 1]);
  }

  lemma RemoveLast(a: seq<Entry>)
    requires |a| > 0
    ensures multiset(a[..|a| - 1]) == multiset(a) - multiset{a[|a| - 1]}
  {
    assert a == a[..|a| - 1] + [a[|a| - 1]];
  }

  lemma RemoveAt(b: seq<Entry>, k: nat)
    requires k < |b|
    ensures multiset(b[..k] + b[k + 1..]) == multiset(b) - multiset{b[k]}
  {
    assert b == b[..k] + [b[k]] + b[k + 1..];
  }

  /** Statistics of a list are those of the list without its k-th entry
      plus that entry's. */
  lemma StatisticsAroundOne(b: seq<Entry>, k: nat)
    requires k < |b|
    ensures GetStatistics(b) == Plus(GetStatistics(b[..k] + b[k + 1..]), EntryStatistics(b[k]))
  {
    var p, x, q := b[..k], b[k], b[k + 1..];
    assert b == (p + [x]) + q;
    GetStatisticsAppend(p, [x]);
    GetStatisticsAppend(p + [x], q);
    GetStatisticsAppend(p, q);
    SingleStatistics(x);
    PlusSwap(GetStatistics(p), EntryStatistics(x), GetStatistics(q));
  }

  lemma SingleStatistics(x: Entry)
    ensures GetStatistics([x]) == EntryStatistics(x)
  {
    assert PerEntry([x]) == [EntryStatistics(x)];
    TallyOne(EntryStatistics(x));
  }

  lemma PlusSwap(a: Statistics, e: Statistics, q: Statistics)
    ensures Plus(Plus(a, e), q) == Plus(Plus(a, q), e)
  {
  }

  /** The cycle total counts exactly the readable records of non-directory
      entries. */
  lemma {:induction false} TotalCountsParsedRecords(dir: seq<Entry>)
    ensures GetStatistics(dir).totalCycles == |ParsedRecords(NonDirectories(dir))|
    decreases |dir|
  {
    if |dir| > 0 {
      var init := dir[..|dir| - 1];
      var last := dir[|dir| - 1];
      assert dir == init + [last];
      TotalCountsParsedRecords(init);
      GetStatisticsAppend(init, [last]);
      SingleStatistics(last);
      NonDirectoriesAppend(init, [last]);
      ParsedRecordsAppend(NonDirectories(init), NonDirectories([last]));
      assert NonDirectories([last]) == (if last.kind != DirectoryLike then [last] else []) by {
        assert [last][1..] == [];
      }
    }
  }

  /** Every counter of the statistics is determined by the readable records
      of non-directory entries: the cycles are those records, the successful
      cycles the ones marked successful, and the open and close counters the
      successful actions of each kind over all their decisions. */
  lemma StatisticsCountParsedRecords(dir: seq<Entry>)
    ensures var rs := ParsedRecords(NonDirectories(dir));
      && GetStatistics(dir).totalCycles == |rs|
      && GetStatistics(dir).successfulCycles == |SuccessfulRecords(rs)|
      && GetStatistics(dir).failedCycles == |rs| - |SuccessfulRecords(rs)|
      && GetStatistics(dir).totalOpenPositions == CountSuccessful(AllDecisions(rs), true)
      && GetStatistics(dir).totalClosePositions == CountSuccessful(AllDecisions(rs), false)
  {
    StatisticsOfParsedRecords(dir);
    RecordsStatisticsCounts(ParsedRecords(NonDirectories(dir)));
  }

  /** The records marked successful, in order. */
  function SuccessfulRecords(rs: seq<DecisionRecord>): (ok: seq<DecisionRecord>)
    ensures |ok| <= |rs|
    ensures forall r :: r in ok ==> r in rs && r.success
    decreases |rs|
  {
    if |rs| == 0 then []
    else (if rs[0].success then [rs[0]] else []) + SuccessfulRecords(rs[1..])
  }

  /** The decisions of all records, one record after another. */
  function AllDecisions(rs: seq<DecisionRecord>): seq<DecisionAction>
    decreases |rs|
  {
    if |rs| == 0 then [] else rs[0].decisions + AllDecisions(rs[1..])
  }

  /** The contributions of a list of records, added up first to last. */
  function RecordsStatistics(rs: seq<DecisionRecord>): Statistics
    decreases |rs|
  {
    if |rs| == 0 then Zero() else Plus(RecordStatistics(rs[0]), RecordsStatistics(rs[1..]))
  }

  lemma {:induction false} RecordsStatisticsCounts(rs: seq<DecisionRecord>)
    ensures RecordsStatistics(rs) ==
      Statistics(|rs|, |SuccessfulRecords(rs)|, |rs| - |SuccessfulRecords(rs)|,
                 CountSuccessful(AllDecisions(rs), true), CountSuccessful(AllDecisions(rs), false))
    decreases |rs|
  {
    if |rs| > 0 {
      RecordsStatisticsCounts(rs[1..]);
      CountSuccessfulAppend(rs[0].decisions, AllDecisions(rs[1..]), true);
      CountSuccessfulAppend(rs[0].decisions, AllDecisions(rs[1..]), false);
    }
  }

  lemma {:induction false} RecordsStatisticsAppend(a: seq<DecisionRecord>, b: seq<DecisionRecord>)
    ensures RecordsStatistics(a + b) == Plus(RecordsStatistics(a), RecordsStatistics(b))
    decreases |a|
  {
    if |a| > 0 {
      assert (a + b)[0] == a[0];
      assert (a + b)[1..] == a[1..] + b;
      RecordsStatisticsAppend(a[1..], b);
      PlusAssociative(RecordStatistics(a[0]), RecordsStatistics(a[1..]), RecordsStatistics(b));
    } else {
      assert a + b == b;
    }
  }

  /** The scan adds up exactly the contributions of the readable records of
      non-directory entries. */
  lemma {:induction false} StatisticsOfParsedRecords(dir: seq<Entry>)
    ensures GetStatistics(dir) == RecordsStatistics(ParsedRecords(NonDirectories(dir)))
    decreases |dir|
  {
    if |dir| > 0 {
      var init, last := dir[..|dir| - 1], dir[|dir| - 1];
      StatisticsOfParsedRecords(init);
      LastStatistics(dir);
      ParsedRecordsSnoc(dir);
      var ri, rl := ParsedRecords(NonDirectories(init)), ParsedRecords(NonDirectories([last]));
      RecordsStatisticsAppend(ri, rl);
      EntryStatisticsOfParsed(last);
    }
  }

  lemma ParsedRecordsSnoc(dir: seq<Entry>)
    requires |dir| > 0
    ensures ParsedRecords(NonDirectories(dir)) ==
      ParsedRecords(NonDirectories(dir[..|dir| - 1])) + ParsedRecords(NonDirectories([dir[|dir| - 1]]))
  {
    var init, last := dir[..|dir| - 1], dir[|dir| - 1];
    assert dir == init + [last];
    NonDirectoriesAppend(init, [last]);
    ParsedRecordsAppend(NonDirectories(init), NonDirectories([last]));
  }

  /** One entry contributes exactly what its readable record, if any, does. */
  lemma EntryStatisticsOfParsed(x: Entry)
    ensures RecordsStatistics(ParsedRecords(NonDirectories([x]))) == EntryStatistics(x)
  {
    ParsedOfOne(x);
    if x.kind != DirectoryLike && x.content.Parsed? {
      assert [x.content.record][1..] == [];
      PlusZero(RecordStatistics(x.content.record));
    }
  }

  lemma ParsedOfOne(x: Entry)
    ensures ParsedRecords(NonDirectories([x])) ==
      if x.kind != DirectoryLike && x.content.Parsed? then [x.content.record] else []
  {
    assert [x][1..] == [];
  }

  lemma {:induction false} CountSuccessfulAppend(a: seq<DecisionAction>, b: seq<DecisionAction>, opens: bool)
    ensures CountSuccessful(a + b, opens) == CountSuccessful(a, opens) + CountSuccessful(b, opens)
    decreases |a|
  {
    if |a| > 0 {
      assert (a + b)[0] == a[0];
      assert (a + b)[1..] == a[1..] + b;
      CountSuccessfulAppend(a[1..], b, opens);
    } else {
      assert a + b == b;
    }
  }

  /** The entries the statistics scan tries to read. */
  function NonDirectories(dir: seq<Entry>): seq<Entry>
    decreases |dir|
  {
    if |dir| == 0 then []
    else (if dir[0].kind != DirectoryLike then [dir[0]] else []) + NonDirectories(dir[1..])
  }

  lemma {:induction false} NonDirectoriesAppend(a: seq<Entry>, b: seq<Entry>)
    ensures NonDirectories(a + b) == NonDirectories(a) + NonDirectories(b)
    decreases |a|
  {
    if |a| > 0 {
      assert (a + b)[0] == a[0];
      assert (a + b)[1..] == a[1..] + b;
      NonDirectoriesAppend(a[1..], b);
    } else {
      assert a + b == b;
    }
  }
}
