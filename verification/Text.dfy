/**
 * The string operations the node side relies on: splitting and joining on a separator, decimal and
 * hexadecimal printing, and parsing one hexadecimal byte. Each printer is proved against its parser.
 */
module Text {
  import opened Prelude

  // ---------- Splitting and joining ----------

  /** strings.Split with a one-character separator. */
  function Split(s: string, c: char): (parts: seq<string>)
    ensures |parts| >= 1
  {
    if s == "" then [""]
    else
      var rest := Split(s[1..], c);
      if s[0] == c then [""] + rest else [[s[0]] + rest[0]] + rest[1..]
  }

  function Join(parts: seq<string>, c: char): string {
    if |parts| == 0 then ""
    else if |parts| == 1 then parts[0]
    else parts[0] + [c] + Join(parts[1..], c)
  }

  lemma {:induction false} SplitPlain(s: string, c: char)
    requires c !in s
    ensures Split(s, c) == [s]
  {
    if s != "" {
      SplitPlain(s[1..], c);
      assert s == [s[0]] + s[1..];
    }
  }

  lemma {:induction false} SplitFirst(first: string, c: char, rest: string)
    requires c !in first
    ensures Split(first + [c] + rest, c) == [first] + Split(rest, c)
  {
    var whole := first + [c] + rest;
    if first == "" {
      assert whole[1..] == rest;
    } else {
      SplitFirst(first[1..], c, rest);
      assert whole[1..] == first[1..] + [c] + rest;
      assert first == [first[0]] + first[1..];
    }
  }

  /** A string splits into one part exactly when the separator is absent, and no part holds it. */
  lemma {:induction false} SplitShape(s: string, c: char)
    ensures |Split(s, c)| == 1 <==> c !in s
    ensures forall k :: 0 <= k < |Split(s, c)| ==> c !in Split(s, c)[k]
  {
    if s != "" {
      SplitShape(s[1..], c);
      assert s == [s[0]] + s[1..];
    }
  }

  lemma {:induction false} SplitHead(s: string, c: char)
    requires c in s
    ensures Split(s, c)[0] + [c] <= s
  {
    if s[0] != c {
      assert s == [s[0]] + s[1..];
      SplitHead(s[1..], c);
      assert Split(s, c)[0] + [c] == [s[0]] + (Split(s[1..], c)[0] + [c]);
    }
  }

  /** Splitting undoes joining exactly when no part carries the separator. */
  lemma SplitJoin(parts: seq<string>, c: char)
    requires |parts| >= 1
    ensures Split(Join(parts, c), c) == parts <==> forall k :: 0 <= k < |parts| ==> c !in parts[k]
  {
    if forall k :: 0 <= k < |parts| ==> c !in parts[k] {
      JoinedSplits(parts, c);
    } else {
      SplitShape(Join(parts, c), c);
    }
  }

  lemma {:induction false} JoinedSplits(parts: seq<string>, c: char)
    requires |parts| >= 1
    requires forall k :: 0 <= k < |parts| ==> c !in parts[k]
    ensures Split(Join(parts, c), c) == parts
  {
    if |parts| == 1 {
      SplitPlain(parts[0], c);
    } else {
      SplitFirst(parts[0], c, Join(parts[1..], c));
      JoinedSplits(parts[1..], c);
    }
  }

  // ---------- Decimal numbers ----------

  const DIGITS: string := "0123456789abcdef"

  predicate IsDigit(c: char) {
    '0' <= c <= '9'
  }

  /** fmt's %d for a number that is not negative. */
  function Decimal(n: nat): string {
    if n < 10 then [DIGITS[n]] else Decimal(n / 10) + [DIGITS[n % 10]]
  }

  function DecimalValue(s: string): int {
    if s == "" then 0 else DecimalValue(s[..|s| - 1]) * 10 + (s[|s| - 1] as int - '0' as int)
  }

  lemma {:induction false} DecimalRoundTrip(n: nat)
    ensures DecimalValue(Decimal(n)) == n
    ensures forall c :: c in Decimal(n) ==> IsDigit(c)
  {
    if n < 10 {
      assert DecimalValue("") == 0;
      assert [DIGITS[n]][..0] == "";
    } else {
      DecimalRoundTrip(n / 10);
      assert Decimal(n)[..|Decimal(n)| - 1] == Decimal(n / 10);
    }
  }

  // ---------- Hexadecimal bytes ----------

  function HexDigit(c: char): Option<nat> {
    if '0' <= c <= '9' then Some(c as int - '0' as int)
    else if 'a' <= c <= 'f' then Some(c as int - 'a' as int + 10)
    else if 'A' <= c <= 'F' then Some(c as int - 'A' as int + 10)
    else None
  }

  /** The number a string of hexadecimal digits of either case denotes. */
  function HexValue(s: string): Option<nat> {
    if s == "" then Some(0)
    else
      var high, low := HexValue(s[..|s| - 1]), HexDigit(s[|s| - 1]);
      if high.Some? && low.Some? then Some(high.value * 16 + low.value) else None
  }

  /** strconv.ParseUint(s, 16, 8): no digits, a character that is no digit and a value over 255 are errors. */
  function ParseByte(s: string): Option<bv8> {
    var value := HexValue(s);
    if s == "" || value.None? || value.value > 255 then None else Some(value.value as bv8)
  }

  /** What is accepted: at least one character, hexadecimal digits of either case, and zeros before the last two. */
  lemma ParseByteAccepts(s: string)
    ensures ParseByte(s).Some? <==>
      s != "" && (forall c :: c in s ==> HexDigit(c).Some?) && forall k :: 0 <= k < |s| - 2 ==> s[k] == '0'
  {
    HexValueMeans(s);
    if |s| > 2 {
      var high := s[..|s| - 1][..|s| - 2];
      assert high == s[..|s| - 2];
      HexValueMeans(high);
      HexValueMeans(s[..|s| - 1]);
    } else if |s| == 2 {
      assert s[..1][..0] == "" && HexValue("") == Some(0);
    } else if |s| == 1 {
      assert s[..0] == "" && HexValue("") == Some(0);
    }
  }

  lemma {:induction false} HexValueMeans(s: string)
    ensures HexValue(s).Some? <==> forall c :: c in s ==> HexDigit(c).Some?
    ensures HexValue(s) == Some(0) <==> forall k :: 0 <= k < |s| ==> s[k] == '0'
  {
    if s != "" {
      var init, last := s[..|s| - 1], s[|s| - 1];
      HexValueMeans(init);
      assert s == init + [last];
      assert HexDigit(last) == Some(0) <==> last == '0';
      assert forall k :: 0 <= k < |init| ==> init[k] == s[k];
    }
  }

  /** Two lower-case digits, as net.HardwareAddr prints a byte. */
  function HexPair(b: bv8): (s: string)
    ensures |s| == 2
  {
    [DIGITS[b as int / 16], DIGITS[b as int % 16]]
  }

  lemma HexDigitRoundTrip(n: nat)
    requires n < 16
    ensures HexDigit(DIGITS[n]) == Some(n)
    ensures DIGITS[n] != ':'
  {
  }

  lemma TwoDigits(n: nat, high: char, low: char)
    requires n < 256 && HexDigit(high) == Some(n / 16) && HexDigit(low) == Some(n % 16)
    ensures HexValue([high, low]) == Some(n)
  {
    var s := [high, low];
    assert s[..1] == [high] && s[..1][..0] == "";
    assert HexValue("") == Some(0);
    assert HexValue(s[..1]) == Some(n / 16);
  }

  lemma HexPairRoundTrip(b: bv8)
    ensures ParseByte(HexPair(b)) == Some(b)
    ensures ':' !in HexPair(b)
  {
    HexDigitRoundTrip(b as int / 16);
    HexDigitRoundTrip(b as int % 16);
    TwoDigits(b as int, HexPair(b)[0], HexPair(b)[1]);
  }
}
