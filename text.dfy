/**
 * The pieces of Python's str behaviour the core relies on: strip(), lower() and str() of an
 * integer. Whitespace and case are the ASCII ones.
 */
module Text {

  /** The ASCII characters for which str.isspace holds: space, 9..13 (\t \n \v \f \r) and 28..31. */
  predicate IsSpace(c: char) {
    c == ' ' || 9 <= c as int <= 13 || 28 <= c as int <= 31
  }

  predicate AllSpace(s: string) {
    forall k :: 0 <= k < |s| ==> IsSpace(s[k])
  }

  /** The number of whitespace characters str.lstrip() removes. */
  function LeadingSpace(s: string): (n: nat)
    ensures n <= |s|
    decreases |s|
  {
    if s != [] && IsSpace(s[0]) then 1 + LeadingSpace(s[1..]) else 0
  }

  /** The number of whitespace characters str.rstrip() removes. */
  function TrailingSpace(s: string): (n: nat)
    ensures n <= |s|
    decreases |s|
  {
    if s != [] && IsSpace(s[|s| - 1]) then 1 + TrailingSpace(s[..|s| - 1]) else 0
  }

  /** str.lstrip(). */
  function TrimStart(s: string): string {
    s[LeadingSpace(s)..]
  }

  /** str.rstrip(). */
  function TrimEnd(s: string): string {
    s[..|s| - TrailingSpace(s)]
  }

  /** str.strip(). */
  function Strip(s: string): string {
    TrimEnd(TrimStart(s))
  }

  /** How slices of a suffix are slices of the whole. */
  lemma SuffixSlices(s: string, i: int, n: int)
    requires 0 <= i <= |s| && 0 <= n <= |s| - i
    ensures s[i..][..n] == s[i..i + n]
    ensures s[i..][n..] == s[i + n..]
    ensures n > 0 ==> s[i..][n - 1] == s[i + n - 1]
  {
  }

  /** The leading whitespace is whitespace, and it stops at a non-space character or at the end. */
  lemma {:induction false} LeadingSpaceIsMaximal(s: string)
    ensures var n := LeadingSpace(s); AllSpace(s[..n]) && (n < |s| ==> !IsSpace(s[n]))
    decreases |s|
  {
    if s != [] && IsSpace(s[0]) {
      LeadingSpaceIsMaximal(s[1..]);
      var n := LeadingSpace(s[1..]);
      assert s[..n + 1] == [s[0]] + s[1..][..n];
      assert n < |s[1..]| ==> s[1..][n] == s[n + 1];
    }
  }

  /** The trailing whitespace is whitespace. */
  lemma {:induction false} TrailingSpaceIsSpace(s: string)
    ensures AllSpace(s[|s| - TrailingSpace(s)..])
    decreases |s|
  {
    if s != [] && IsSpace(s[|s| - 1]) {
      var init := s[..|s| - 1];
      TrailingSpaceIsSpace(init);
      var n := TrailingSpace(init);
      assert s[|s| - (n + 1)..] == init[|init| - n..] + [s[|s| - 1]];
    }
  }

  /** The trailing whitespace stops at a non-space character or at the start. */
  lemma {:induction false} TrailingSpaceStops(s: string)
    ensures var n := TrailingSpace(s); n < |s| ==> !IsSpace(s[|s| - n - 1])
    decreases |s|
  {
    if s != [] && IsSpace(s[|s| - 1]) {
      var init := s[..|s| - 1];
      TrailingSpaceStops(init);
      var n := TrailingSpace(init);
      assert n < |init| ==> init[|init| - n - 1] == s[|s| - (n + 1) - 1];
    }
  }

  /** The trailing whitespace is whitespace, and it stops at a non-space character or at the start. */
  lemma TrailingSpaceIsMaximal(s: string)
    ensures var n := TrailingSpace(s); AllSpace(s[|s| - n..]) && (n < |s| ==> !IsSpace(s[|s| - n - 1]))
  {
    TrailingSpaceIsSpace(s);
    TrailingSpaceStops(s);
  }

  /** Leading whitespace ending at a non-space character at i is exactly i characters long. */
  lemma {:induction false} LeadingSpaceStopsAt(s: string, i: int)
    requires 0 <= i < |s|
    requires AllSpace(s[..i]) && !IsSpace(s[i])
    ensures LeadingSpace(s) == i
    decreases i
  {
    if i > 0 {
      assert s[..i][0] == s[0];
      assert s[1..][..i - 1] == s[..i][1..];
      assert s[1..][i - 1] == s[i];
      LeadingSpaceStopsAt(s[1..], i - 1);
    }
  }

  /** Trailing whitespace starting after a non-space character at j - 1 is |s| - j characters long. */
  lemma {:induction false} TrailingSpaceStopsAt(s: string, j: int)
    requires 0 < j <= |s|
    requires AllSpace(s[j..]) && !IsSpace(s[j - 1])
    ensures TrailingSpace(s) == |s| - j
    decreases |s| - j
  {
    if j < |s| {
      var n := |s| - 1;
      assert s[j..][n - j] == s[n];
      assert s[..n][j..] == s[j..][..n - j];
      assert s[..n][j - 1] == s[j - 1];
      TrailingSpaceStopsAt(s[..n], j);
    }
  }

  /** str.lstrip() keeps a suffix, drops only whitespace, and keeps no leading whitespace. */
  lemma TrimStartDropsLeadingSpace(s: string)
    ensures var t := TrimStart(s);
      && |t| <= |s| && t == s[|s| - |t|..]
      && AllSpace(s[..|s| - |t|])
      && (t != [] ==> !IsSpace(t[0]))
  {
    LeadingSpaceIsMaximal(s);
  }

  /** str.rstrip() keeps a prefix, drops only whitespace, and keeps no trailing whitespace. */
  lemma TrimEndDropsTrailingSpace(s: string)
    ensures var t := TrimEnd(s);
      && |t| <= |s| && t == s[..|t|]
      && AllSpace(s[|t|..])
      && (t != [] ==> !IsSpace(t[|t| - 1]))
  {
    TrailingSpaceIsMaximal(s);
  }

  /** Strip keeps exactly the slice between whitespace padding that ends at non-space characters. */
  lemma StripRemovesPadding(s: string, i: int, j: int)
    requires 0 <= i < j <= |s|
    requires AllSpace(s[..i]) && AllSpace(s[j..])
    requires !IsSpace(s[i]) && !IsSpace(s[j - 1])
    ensures Strip(s) == s[i..j]
  {
    LeadingSpaceStopsAt(s, i);
    SuffixSlices(s, i, j - i);
    TrailingSpaceStopsAt(s[i..], j - i);
  }

  /** Strip returns a slice of its argument with only whitespace around it. */
  lemma StripIsPaddedSlice(s: string)
    ensures var t := Strip(s); var i := |s| - |TrimStart(s)|;
      && 0 <= i <= i + |t| <= |s| && t == s[i..i + |t|]
      && AllSpace(s[..i]) && AllSpace(s[i + |t|..])
  {
    var i := LeadingSpace(s);
    LeadingSpaceIsMaximal(s);
    TrailingSpaceIsMaximal(s[i..]);
    SuffixSlices(s, i, |Strip(s)|);
  }

  /** The ASCII case fold of str.lower(). */
  function LowerChar(c: char): char {
    if 'A' <= c <= 'Z' then (c as int + 32) as char else c
  }

  /** str.lower(). */
  function Lower(s: string): string {
    seq(|s|, k requires 0 <= k < |s| => LowerChar(s[k]))
  }

  predicate IsDigits(s: string) {
    forall k :: 0 <= k < |s| ==> '0' <= s[k] <= '9'
  }

  function DigitChar(d: int): char
    requires 0 <= d < 10
  {
    ('0' as int + d) as char
  }

  function DigitValue(c: char): int
    requires '0' <= c <= '9'
  {
    c as int - '0' as int
  }

  /** str(n) for a natural number: its decimal digits, most significant first. */
  function NatToString(n: nat): (s: string)
    ensures |s| >= 1 && IsDigits(s)
    decreases n
  {
    if n < 10 then [DigitChar(n)] else NatToString(n / 10) + [DigitChar(n % 10)]
  }

  /** str(i) for an integer: a minus sign for negative values, then the digits; never a dot. */
  function IntToString(i: int): (s: string)
    ensures s != [] && (s[0] == '-' <==> i < 0)
    ensures forall k :: 0 <= k < |s| ==> s[k] != '.'
  {
    if i < 0 then "-" + NatToString(-i) else NatToString(i)
  }

  /** int(s) for a string of decimal digits. */
  function ParseNat(s: string): nat
    requires IsDigits(s)
    decreases |s|
  {
    if s == [] then 0 else ParseNat(s[..|s| - 1]) * 10 + DigitValue(s[|s| - 1])
  }

  predicate IsDecimal(s: string) {
    s != [] && if s[0] == '-' then IsDigits(s[1..]) else IsDigits(s)
  }

  /** int(s) for an optionally signed decimal numeral: the inverse that shows str(i) determines i. */
  function ParseInt(s: string): int
    requires IsDecimal(s)
  {
    if s[0] == '-' then -(ParseNat(s[1..]) as int) else ParseNat(s)
  }

  lemma {:induction false} ParseNatInvertsNatToString(n: nat)
    ensures ParseNat(NatToString(n)) == n
    decreases n
  {
    if n >= 10 {
      var s := NatToString(n);
      assert s[..|s| - 1] == NatToString(n / 10);
      ParseNatInvertsNatToString(n / 10);
    }
  }

  /** Parsing the decimal form of an ordinal gives the ordinal back. */
  lemma ParseIntInvertsIntToString(i: int)
    ensures IsDecimal(IntToString(i)) && ParseInt(IntToString(i)) == i
  {
    if i < 0 {
      assert IntToString(i)[1..] == NatToString(-i);
      ParseNatInvertsNatToString(-i);
    } else {
      ParseNatInvertsNatToString(i);
    }
  }

  /** Distinct integers have distinct decimal forms. */
  lemma IntToStringInjective(a: int, b: int)
    requires IntToString(a) == IntToString(b)
    ensures a == b
  {
    ParseIntInvertsIntToString(a);
    ParseIntInvertsIntToString(b);
  }
}
