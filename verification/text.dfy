/** String helpers the system relies on: ASCII case mapping, suffix tests,
    decimal digit rendering and parsing, and comma-separated lists. */
module Text {

  // ---------------------------------------------------------------------
  // Case mapping (ASCII letters; every other character is left alone)
  // ---------------------------------------------------------------------

  predicate IsLower(c: char) { 'a' <= c <= 'z' }

  predicate IsUpper(c: char) { 'A' <= c <= 'Z' }

  function UpperChar(c: char): char
  {
    if IsLower(c) then (c as int - 32) as char else c
  }

  function LowerChar(c: char): char
  {
    if IsUpper(c) then (c as int + 32) as char else c
  }

  /** `str::to_uppercase` restricted to ASCII letters. */
  function ToUpper(s: string): (r: string)
    ensures |r| == |s|
    ensures forall i :: 0 <= i < |s| ==> r[i] == UpperChar(s[i])
  {
    seq(|s|, i requires 0 <= i < |s| => UpperChar(s[i]))
  }

  /** `str::to_lowercase` restricted to ASCII letters. */
  function ToLower(s: string): (r: string)
    ensures |r| == |s|
    ensures forall i :: 0 <= i < |s| ==> r[i] == LowerChar(s[i])
  {
    seq(|s|, i requires 0 <= i < |s| => LowerChar(s[i]))
  }

  predicate NoLower(s: string)
  {
    forall i :: 0 <= i < |s| ==> !IsLower(s[i])
  }

  /** Upper-casing leaves no lower-case letter behind and is idempotent. */
  lemma ToUpperIdempotent(s: string)
    ensures NoLower(ToUpper(s))
    ensures ToUpper(ToUpper(s)) == ToUpper(s)
  {
  }

  lemma ToUpperConcat(a: string, b: string)
    ensures ToUpper(a + b) == ToUpper(a) + ToUpper(b)
  {
  }

  // ---------------------------------------------------------------------
  // Suffixes
  // ---------------------------------------------------------------------

  predicate EndsWith(s: string, suffix: string)
  {
    |suffix| <= |s| && s[|s| - |suffix|..] == suffix
  }

  // ---------------------------------------------------------------------
  // Decimal digits
  // ---------------------------------------------------------------------

  predicate IsDigit(c: char) { '0' <= c <= '9' }

  predicate AllDigits(s: string)
  {
    forall i :: 0 <= i < |s| ==> IsDigit(s[i])
  }

  function DigitChar(d: nat): (c: char)
    requires d < 10
    ensures IsDigit(c)
    ensures c as int - '0' as int == d
  {
    (d + '0' as int) as char
  }

  function DigitValue(c: char): nat
    requires IsDigit(c)
  {
    c as int - '0' as int
  }

  function Pow10(n: nat): (p: nat)
    ensures p >= 1
  {
    if n == 0 then 1 else 10 * Pow10(n - 1)
  }

  /** The number a string of decimal digits denotes, most significant first. */
  function ValueOf(s: string): nat
    requires AllDigits(s)
  {
    if |s| == 0 then 0 else ValueOf(s[..|s| - 1]) * 10 + DigitValue(s[|s| - 1])
  }

  /** `n` written with exactly `width` digits, zero-padded on the left
      (`{:0width}` in Rust, `%Y`/`%m`/... in chrono for in-range fields). */
  function Padded(n: nat, width: nat): (s: string)
    requires n < Pow10(width)
    ensures |s| == width
    ensures AllDigits(s)
    ensures ValueOf(s) == n
  {
    if width == 0 then "" else
      var s := Padded(n / 10, width - 1) + [DigitChar(n % 10)];
      assert s[..|s| - 1] == Padded(n / 10, width - 1);
      s
  }

  /** `n` in decimal without leading zeros (`{}` in Rust for integers). */
  function Decimal(n: nat): (s: string)
    ensures 1 <= |s|
    ensures AllDigits(s)
    ensures ValueOf(s) == n
    ensures s[0] == '0' ==> n == 0
  {
    if n < 10 then [DigitChar(n)] else
      var s := Decimal(n / 10) + [DigitChar(n % 10)];
      assert s[..|s| - 1] == Decimal(n / 10);
      s
  }

  // ---------------------------------------------------------------------
  // ", "-separated lists
  // ---------------------------------------------------------------------

  /** `parts.join(", ")`. */
  function JoinComma(parts: seq<string>): string
  {
    if |parts| == 0 then ""
    else if |parts| == 1 then parts[0]
    else parts[0] + ", " + JoinComma(parts[1..])
  }

  /** Index of the first `c` in `s`, or `|s|` when there is none. */
  function IndexOf(s: string, c: char): (i: nat)
    ensures i <= |s|
    ensures i < |s| ==> s[i] == c
    ensures forall j :: 0 <= j < i ==> s[j] != c
  {
    if |s| == 0 then 0
    else if s[0] == c then 0
    else 1 + IndexOf(s[1..], c)
  }

  /** Splits at every `,`, dropping one space that follows a comma. */
  function SplitComma(s: string): seq<string>
    decreases |s|
  {
    var i := IndexOf(s, ',');
    if i == |s| then [s]
    else if i + 1 < |s| && s[i + 1] == ' ' then [s[..i]] + SplitComma(s[i + 2..])
    else [s[..i]] + SplitComma(s[i + 1..])
  }

  predicate CommaFree(p: string)
  {
    forall i :: 0 <= i < |p| ==> p[i] != ','
  }

  /** Splitting undoes joining when no part carries a comma of its own. */
  lemma {:induction false} SplitJoinComma(parts: seq<string>)
    requires 1 <= |parts|
    requires forall k :: 0 <= k < |parts| ==> CommaFree(parts[k])
    ensures SplitComma(JoinComma(parts)) == parts
    decreases |parts|
  {
    var p := parts[0];
    if |parts| == 1 {
      assert JoinComma(parts) == p;
      assert IndexOf(p, ',') == |p|;
    } else {
      var tail := parts[1..];
      assert forall k :: 0 <= k < |tail| ==> CommaFree(tail[k]) by {
        forall k | 0 <= k < |tail| ensures CommaFree(tail[k]) {
          assert tail[k] == parts[k + 1];
        }
      }
      assert JoinComma(parts) == p + ", " + JoinComma(tail);
      SplitCommaHead(p, JoinComma(tail));
      SplitJoinComma(tail);
    }
  }

  /** A comma-free head followed by ", " splits off as the first part. */
  lemma SplitCommaHead(p: string, rest: string)
    requires CommaFree(p)
    ensures SplitComma(p + ", " + rest) == [p] + SplitComma(rest)
  {
    var s := p + ", " + rest;
    assert s[|p|] == ',';
    assert forall j :: 0 <= j < |p| ==> s[j] == p[j];
    assert IndexOf(s, ',') == |p|;
    assert s[|p| + 1] == ' ';
    assert s[..|p|] == p;
    assert s[|p| + 2..] == rest;
  }
}
