/** Strings as the evaluation scripts use them: substring tests, joins, decimal
    rendering of integers, and the handful of character classes the task-name
    patterns are built from. */
module Text {

  predicate IsDigit(c: char) { '0' <= c <= '9' }

  /** `[a-zA-Z]`: the ASCII letters, nothing else. */
  predicate IsLetter(c: char) { 'a' <= c <= 'z' || 'A' <= c <= 'Z' }

  predicate AllDigits(s: string) { forall i | 0 <= i < |s| :: IsDigit(s[i]) }

  /** `[a-zA-Z_]` */
  predicate IsNameChar(c: char) { IsLetter(c) || c == '_' }

  predicate StartsWith(s: string, prefix: string) {
    |prefix| <= |s| && s[..|prefix|] == prefix
  }

  predicate EndsWith(s: string, suffix: string) {
    |suffix| <= |s| && s[|s| - |suffix|..] == suffix
  }

  predicate OccursAt(s: string, t: string, i: int) {
    0 <= i && i + |t| <= |s| && s[i..i + |t|] == t
  }

  /** Python's `t in s` for strings. */
  predicate Contains(s: string, t: string) {
    exists i | 0 <= i <= |s| - |t| :: OccursAt(s, t, i)
  }

  lemma ContainsWitness(s: string, t: string, i: int)
    requires OccursAt(s, t, i)
    ensures Contains(s, t)
  {
  }

  /** `sep.join(parts)` */
  function Join(sep: string, parts: seq<string>): string
  {
    if |parts| == 0 then ""
    else if |parts| == 1 then parts[0]
    else parts[0] + sep + Join(sep, parts[1..])
  }

  function DigitChar(d: nat): (c: char)
    requires d < 10
    ensures IsDigit(c)
  {
    ['0', '1', '2', '3', '4', '5', '6', '7', '8', '9'][d]
  }

  function DigitValue(c: char): (d: nat)
    requires IsDigit(c)
    ensures d < 10
  {
    (c as int) - ('0' as int)
  }

  lemma DigitRoundTrip(d: nat)
    requires d < 10
    ensures DigitValue(DigitChar(d)) == d
  {
  }

  /** Python's `str(n)` for a non-negative integer. */
  function NatToString(n: nat): (s: string)
    ensures |s| > 0 && AllDigits(s)
  {
    if n < 10 then [DigitChar(n)] else NatToString(n / 10) + [DigitChar(n % 10)]
  }

  /** Python's `int(s)` for a non-empty run of decimal digits. */
  function ParseDigits(s: string): nat
    requires AllDigits(s)
  {
    if |s| == 0 then 0 else 10 * ParseDigits(s[..|s| - 1]) + DigitValue(s[|s| - 1])
  }

  lemma {:induction false} ParseNatToString(n: nat)
    ensures ParseDigits(NatToString(n)) == n
  {
    var s := NatToString(n);
    if n < 10 {
      DigitRoundTrip(n);
    } else {
      assert s[..|s| - 1] == NatToString(n / 10);
      ParseNatToString(n / 10);
      DigitRoundTrip(n % 10);
    }
  }

  /** Length of the leading run of digits: how far `\d+` reaches. */
  function DigitRun(s: string): (n: nat)
    ensures n <= |s| && (forall k | 0 <= k < n :: IsDigit(s[k])) && (n < |s| ==> !IsDigit(s[n]))
  {
    if |s| == 0 || !IsDigit(s[0]) then 0 else 1 + DigitRun(s[1..])
  }

  lemma DigitRunOf(a: string, t: string)
    requires AllDigits(a) && (|t| == 0 || !IsDigit(t[0]))
    ensures DigitRun(a + t) == |a|
  {
    assert forall k | 0 <= k < |a| :: (a + t)[k] == a[k];
    assert |t| > 0 ==> (a + t)[|a|] == t[0];
  }

  /** Python's `str(i)` for any integer. */
  function IntToString(i: int): (s: string)
    ensures i >= 0 ==> s == NatToString(i)
    ensures i < 0 ==> s == "-" + NatToString(-i)
  {
    if i < 0 then "-" + NatToString(-i) else NatToString(i)
  }

  /** `s.split(sep)[-1]` for a one-character separator: the text after the
      last separator, or all of `s` when there is none. */
  function AfterLast(s: string, sep: char): (r: string)
    ensures EndsWith(s, r)
    ensures forall i | 0 <= i < |r| :: r[i] != sep
    ensures |r| < |s| ==> s[|s| - |r| - 1] == sep
  {
    if |s| == 0 then ""
    else if s[|s| - 1] == sep then ""
    else AfterLast(s[..|s| - 1], sep) + [s[|s| - 1]]
  }

  /** The text after the last separator is everything past it. */
  lemma AfterLastAt(s: string, sep: char, k: int)
    requires 0 <= k < |s| && s[k] == sep
    requires forall i | k < i < |s| :: s[i] != sep
    ensures AfterLast(s, sep) == s[k + 1..]
  {
    var r := AfterLast(s, sep);
    assert r == s[|s| - |r|..];
    assert |r| < |s| - k by {
      assert forall j | |s| - |r| <= j < |s| :: s[j] == r[j - (|s| - |r|)];
    }
  }

  /** `s.split(sep)[0]` for a one-character separator. */
  function BeforeFirst(s: string, sep: char): (r: string)
    ensures StartsWith(s, r)
    ensures forall i | 0 <= i < |r| :: r[i] != sep
    ensures |r| < |s| ==> s[|r|] == sep
  {
    if |s| == 0 then ""
    else if s[0] == sep then ""
    else [s[0]] + BeforeFirst(s[1..], sep)
  }

  /** `len(s.split(sep))` for a one-character separator: one more than the
      number of separators. */
  function PartCount(s: string, sep: char): (n: nat)
    ensures n >= 1
  {
    if |s| == 0 then 1
    else (if s[0] == sep then 1 else 0) + PartCount(s[1..], sep)
  }

  /** `s.rstrip(c)` for one character. */
  function TrimEnd(s: string, c: char): (r: string)
    ensures StartsWith(s, r)
    ensures |r| > 0 ==> r[|r| - 1] != c
    ensures forall i | |r| <= i < |s| :: s[i] == c
  {
    if |s| == 0 then ""
    else if s[|s| - 1] == c then TrimEnd(s[..|s| - 1], c)
    else s
  }

  /** The quote `repr` of a string picks: single, unless the text holds a
      single quote and no double quote. */
  function ReprQuote(s: string): (q: char)
    ensures q == '\'' || q == '"'
  {
    if '\'' in s && '"' !in s then '"' else '\''
  }

  predicate NeedsEscape(c: char, quote: char)
  {
    c == '\\' || c == quote || c == '\n' || c == '\r' || c == '\t'
  }

  /** The body of `repr(s)` between its quotes: backslash, the chosen quote
      and the newline, carriage-return and tab characters are escaped. */
  function Escape(s: string, quote: char): (r: string)
    ensures |r| >= |s|
    ensures (forall i | 0 <= i < |s| :: !NeedsEscape(s[i], quote)) ==> r == s
  {
    if |s| == 0 then ""
    else
      var c := s[0];
      var e := if c == '\\' then "\\\\"
        else if c == quote then ['\\', quote]
        else if c == '\n' then "\\n"
        else if c == '\r' then "\\r"
        else if c == '\t' then "\\t"
        else [c];
      assert s == [c] + s[1..];
      e + Escape(s[1..], quote)
  }

  /** Python's `repr(s)` for a string made of printable characters. */
  function StrRepr(s: string): (r: string)
    ensures |r| >= |s| + 2 && r[0] == r[|r| - 1] == ReprQuote(s)
    ensures (forall i | 0 <= i < |s| :: !NeedsEscape(s[i], ReprQuote(s))) ==> r == [ReprQuote(s)] + s + [ReprQuote(s)]
  {
    var q := ReprQuote(s);
    [q] + Escape(s, q) + [q]
  }

  /** `str(xs)` for a list of strings: `['a', 'b']`. */
  function ListRepr(xs: seq<string>): (r: string)
    ensures StartsWith(r, "[") && EndsWith(r, "]")
  {
    "[" + Join(", ", seq(|xs|, i requires 0 <= i < |xs| => StrRepr(xs[i]))) + "]"
  }

  /** `"".join(parts)` */
  function Concat(parts: seq<string>): string
  {
    if |parts| == 0 then "" else parts[0] + Concat(parts[1..])
  }

  /** Every part of a concatenation occurs in it. */
  lemma {:induction false} ConcatContains(parts: seq<string>, i: int)
    requires 0 <= i < |parts|
    ensures Contains(Concat(parts), parts[i])
  {
    var c := Concat(parts);
    if i == 0 {
      assert c[..|parts[0]|] == parts[0];
      assert OccursAt(c, parts[0], 0);
    } else {
      ConcatContains(parts[1..], i - 1);
      var rest := Concat(parts[1..]);
      var j :| 0 <= j <= |rest| - |parts[i]| && OccursAt(rest, parts[i], j);
      var k := |parts[0]| + j;
      assert c[k..k + |parts[i]|] == rest[j..j + |parts[i]|];
      assert OccursAt(c, parts[i], k);
    }
  }

  /** Text found in `s` is still found after something is put in front. */
  lemma ContainsAfterPrefix(pre: string, s: string, t: string)
    requires Contains(s, t)
    ensures Contains(pre + s, t)
  {
    var j :| 0 <= j <= |s| - |t| && OccursAt(s, t, j);
    assert (pre + s)[|pre| + j..|pre| + j + |t|] == s[j..j + |t|];
    assert OccursAt(pre + s, t, |pre| + j);
  }

  /** Text found in `s` is still found after something is appended. */
  lemma ContainsBeforeSuffix(s: string, post: string, t: string)
    requires Contains(s, t)
    ensures Contains(s + post, t)
  {
    var j :| 0 <= j <= |s| - |t| && OccursAt(s, t, j);
    assert (s + post)[j..j + |t|] == s[j..j + |t|];
    assert OccursAt(s + post, t, j);
  }

  /** Text found in `s` has each of its prefixes found there too. */
  lemma ContainsPrefix(s: string, t: string, more: string)
    requires Contains(s, t + more)
    ensures Contains(s, t)
  {
    var j :| 0 <= j <= |s| - |t + more| && OccursAt(s, t + more, j);
    assert s[j..j + |t|] == (t + more)[..|t|];
    assert OccursAt(s, t, j);
  }
}
