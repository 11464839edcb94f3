/** The Kotlin standard-library string operations the downloader relies on,
    stated over `string` (= `seq<char>`), together with the decimal
    conversions of `Int`/`Long` (`toString`, `toIntOrNull`, `toLong`). */
module Text {
  import opened Wrappers

  /** `s.startsWith(prefix)`. */
  predicate StartsWith(s: string, prefix: string) {
    prefix <= s
  }

  /** Index of the first occurrence of `c` in `s`, or -1 (`indexOf`). */
  function IndexOf(s: string, c: char): (i: int)
    ensures -1 <= i < |s|
    ensures i >= 0 ==> s[i] == c && forall j :: 0 <= j < i ==> s[j] != c
    ensures i == -1 ==> forall j :: 0 <= j < |s| ==> s[j] != c
  {
    if |s| == 0 then -1
    else if s[0] == c then 0
    else var k := IndexOf(s[1..], c); if k < 0 then -1 else k + 1
  }

  /** Index of the last occurrence of `c` in `s`, or -1 (`lastIndexOf`). */
  function LastIndexOf(s: string, c: char): (i: int)
    ensures -1 <= i < |s|
    ensures i >= 0 ==> s[i] == c && forall j :: i < j < |s| ==> s[j] != c
    ensures i == -1 ==> forall j :: 0 <= j < |s| ==> s[j] != c
  {
    if |s| == 0 then -1
    else if s[|s| - 1] == c then |s| - 1
    else LastIndexOf(s[..|s| - 1], c)
  }

  /** `s.substringBeforeLast(c)`: the whole string when `c` does not occur. */
  function SubstringBeforeLast(s: string, c: char): string {
    var i := LastIndexOf(s, c);
    if i < 0 then s else s[..i]
  }

  /** `s.substringAfterLast(c)`: the whole string when `c` does not occur. */
  function SubstringAfterLast(s: string, c: char): string {
    var i := LastIndexOf(s, c);
    if i < 0 then s else s[i + 1..]
  }

  /** `s.substringAfter(c)`: the whole string when `c` does not occur. */
  function SubstringAfter(s: string, c: char): string {
    var i := IndexOf(s, c);
    if i < 0 then s else s[i + 1..]
  }

  /** `s.contains(sub)`. */
  predicate Contains(s: string, sub: string)
    decreases |s|
  {
    StartsWith(s, sub) || (|s| > 0 && Contains(s[1..], sub))
  }

  /** `s.split(c)`: every occurrence of `c` separates two parts. */
  function Split(s: string, c: char): (parts: seq<string>)
    ensures |parts| >= 1
    decreases |s|
  {
    var i := IndexOf(s, c);
    if i < 0 then [s] else [s[..i]] + Split(s[i + 1..], c)
  }

  lemma SubstringAfterLastHasNo(s: string, c: char)
    ensures c !in SubstringAfterLast(s, c)
  {
  }

  /** The first `c` of `a + [c] + b` is the one after `a` when `a` has none. */
  lemma IndexOfAfter(a: string, c: char, b: string)
    requires c !in a
    ensures IndexOf(a + [c] + b, c) == |a|
    ensures SubstringAfter(a + [c] + b, c) == b
  {
    var s := a + [c] + b;
    assert s[|a|] == c;
    assert forall j :: 0 <= j < |a| ==> s[j] == a[j];
    assert s[|a| + 1..] == b;
  }

  /** The text before the last `c` of `a + [c] + b` is `a` when `b` has no `c`. */
  lemma SubstringBeforeLastOf(a: string, c: char, b: string)
    requires c !in b
    ensures SubstringBeforeLast(a + [c] + b, c) == a
    ensures SubstringAfterLast(a + [c] + b, c) == b
  {
    var s := a + [c] + b;
    assert s[|a|] == c;
    assert s[|a| + 1..] == b;
  }

  /** `s.split(c)` is `s` alone iff `c` does not occur. */
  lemma SplitOne(s: string, c: char)
    ensures |Split(s, c)| == 1 <==> c !in s
    ensures c !in s ==> Split(s, c) == [s]
  {
    var i := IndexOf(s, c);
    if i >= 0 {
      assert s[i] == c;
      var tail := Split(s[i + 1..], c);
      assert Split(s, c) == [s[..i]] + tail;
      assert |Split(s, c)| == 1 + |tail|;
    } else {
      assert c !in s;
    }
  }

  /** `s.split(c)` has exactly two parts iff `c` occurs exactly once; the
      parts are then the text before and after that occurrence. */
  lemma SplitInTwo(s: string, c: char)
    ensures |Split(s, c)| == 2 <==>
      (IndexOf(s, c) >= 0 && c !in s[IndexOf(s, c) + 1..])
    ensures |Split(s, c)| == 2 ==>
      Split(s, c) == [s[..IndexOf(s, c)], s[IndexOf(s, c) + 1..]]
  {
    var i := IndexOf(s, c);
    var parts := Split(s, c);
    if i < 0 {
      assert parts == [s];
    } else {
      var rest := s[i + 1..];
      var tail := Split(rest, c);
      assert parts == [s[..i]] + tail;
      SplitOne(rest, c);
      if c !in rest {
        assert parts == [s[..i], rest];
      } else {
        assert |parts| == 1 + |tail| && |tail| != 1;
      }
    }
  }

  // ---------------------------------------------------------------------
  // Lines

  predicate IsLineBreak(ch: char) {
    ch == '\n' || ch == '\r'
  }

  /** Index of the first `\n` or `\r`, or -1. */
  function FirstBreak(s: string): (i: int)
    ensures -1 <= i < |s|
    ensures i >= 0 ==> IsLineBreak(s[i])
    ensures forall j :: 0 <= j < |s| && (i < 0 || j < i) ==> !IsLineBreak(s[j])
  {
    if |s| == 0 then -1
    else if IsLineBreak(s[0]) then 0
    else var k := FirstBreak(s[1..]); if k < 0 then -1 else k + 1
  }

  /** `s.lines()`: splits on `\r\n`, `\n` and `\r`; a trailing terminator
      yields a final empty line, and the empty text is one empty line. */
  function Lines(s: string): (ls: seq<string>)
    ensures |ls| >= 1
    decreases |s|
  {
    var i := FirstBreak(s);
    if i < 0 then [s]
    else if s[i] == '\r' && i + 1 < |s| && s[i + 1] == '\n' then [s[..i]] + Lines(s[i + 2..])
    else [s[..i]] + Lines(s[i + 1..])
  }

  /** No line holds a line terminator. */
  lemma {:induction false} LinesHaveNoBreaks(s: string)
    ensures forall k, j :: 0 <= k < |Lines(s)| && 0 <= j < |Lines(s)[k]| ==> !IsLineBreak(Lines(s)[k][j])
    decreases |s|
  {
    var i := FirstBreak(s);
    if i >= 0 {
      var rest := if s[i] == '\r' && i + 1 < |s| && s[i + 1] == '\n' then s[i + 2..] else s[i + 1..];
      LinesHaveNoBreaks(rest);
      assert Lines(s) == [s[..i]] + Lines(rest);
    }
  }

  /** Joins lines with `\n` between them. */
  function JoinLines(ls: seq<string>): string
    requires |ls| >= 1
  {
    if |ls| == 1 then ls[0] else ls[0] + "\n" + JoinLines(ls[1..])
  }

  /** For a text without `\r`, splitting into lines and joining them again
      with `\n` gives back the text: no character is lost or added. */
  lemma {:induction false} LinesJoin(s: string)
    requires '\r' !in s
    ensures JoinLines(Lines(s)) == s
    decreases |s|
  {
    var i := FirstBreak(s);
    if i >= 0 {
      assert s[i] == '\n';
      assert '\r' !in s[i + 1..];
      LinesJoin(s[i + 1..]);
      assert s == s[..i] + "\n" + s[i + 1..];
    }
  }

  // ---------------------------------------------------------------------
  // Decimal numbers

  const INT_MAX: int := 0x7FFF_FFFF
  const INT_MIN: int := -0x8000_0000
  const LONG_MAX: int := 0x7FFF_FFFF_FFFF_FFFF
  const LONG_MIN: int := -0x8000_0000_0000_0000

  predicate IsDigit(ch: char) {
    '0' <= ch <= '9'
  }

  predicate AllDigits(s: string) {
    forall j :: 0 <= j < |s| ==> IsDigit(s[j])
  }

  function DigitChar(d: nat): char
    requires d < 10
  {
    (48 + d) as char
  }

  /** Decimal text of a non-negative number. */
  function NatToString(n: nat): string {
    if n < 10 then [DigitChar(n)] else NatToString(n / 10) + [DigitChar(n % 10)]
  }

  /** The decimal text is a non-empty run of digits without a leading zero. */
  lemma {:induction false} NatToStringDigits(n: nat)
    ensures |NatToString(n)| >= 1 && AllDigits(NatToString(n))
    ensures |NatToString(n)| > 1 ==> NatToString(n)[0] != '0'
  {
    if n >= 10 {
      NatToStringDigits(n / 10);
    }
  }

  /** `Long.toString()`: a minus sign before the digits of a negative number. */
  function LongToString(n: int): string {
    if n < 0 then "-" + NatToString(-n) else NatToString(n)
  }

  /** The value of a run of decimal digits. */
  function DigitsValue(s: string): nat
    requires AllDigits(s)
  {
    if |s| == 0 then 0
    else DigitsValue(s[..|s| - 1]) * 10 + ((s[|s| - 1] as int) - 48)
  }

  /** Kotlin's `toIntOrNull`/`toLongOrNull` in radix 10 over [lo, hi]: an
      optional `-` or `+` sign (not alone), then only digits, within range. */
  function ParseInteger(s: string, lo: int, hi: int): (r: Option<int>)
    requires lo <= 0 <= hi
    ensures r.Some? ==> lo <= r.value <= hi
  {
    if |s| == 0 then None
    else if s[0] < '0' then
      if |s| == 1 || (s[0] != '-' && s[0] != '+') || !AllDigits(s[1..]) then None
      else
        var v: int := DigitsValue(s[1..]);
        if s[0] == '-' then (if -v < lo then None else Some(-v))
        else (if v > hi then None else Some(v))
    else if !AllDigits(s) then None
    else var v := DigitsValue(s); if v > hi then None else Some(v)
  }

  /** `String.toIntOrNull()`. */
  function ToIntOrNull(s: string): Option<int> {
    ParseInteger(s, INT_MIN, INT_MAX)
  }

  /** `String.toLongOrNull()`; `toLong()` throws exactly where this is None. */
  function ToLongOrNull(s: string): Option<int> {
    ParseInteger(s, LONG_MIN, LONG_MAX)
  }

  /** Reading back the decimal text of a number gives the number. */
  lemma {:induction false} DigitsValueOfNatToString(n: nat)
    ensures AllDigits(NatToString(n)) && DigitsValue(NatToString(n)) == n
  {
    NatToStringDigits(n);
    if n >= 10 {
      DigitsValueOfNatToString(n / 10);
      var s := NatToString(n);
      assert s[..|s| - 1] == NatToString(n / 10);
    }
  }

  /** `n.toString().toIntOrNull() == n` for every non-negative `Int`. */
  lemma ToIntOrNullOfNatToString(n: nat)
    requires n <= INT_MAX
    ensures ToIntOrNull(NatToString(n)) == Some(n)
  {
    DigitsValueOfNatToString(n);
  }

  /** `n.toString().toLong() == n` for every `Long`, negative ones included. */
  lemma ToLongOrNullOfLongToString(n: int)
    requires LONG_MIN <= n <= LONG_MAX
    ensures ToLongOrNull(LongToString(n)) == Some(n)
  {
    if n < 0 {
      DigitsValueOfNatToString(-n);
      assert LongToString(n)[1..] == NatToString(-n);
    } else {
      DigitsValueOfNatToString(n);
    }
  }

  /** Distinct numbers have distinct decimal texts. */
  lemma NatToStringInjective(m: nat, n: nat)
    requires NatToString(m) == NatToString(n)
    ensures m == n
  {
    DigitsValueOfNatToString(m);
    DigitsValueOfNatToString(n);
  }

  lemma LongToStringInjective(m: int, n: int)
    requires LONG_MIN <= m <= LONG_MAX && LONG_MIN <= n <= LONG_MAX
    requires LongToString(m) == LongToString(n)
    ensures m == n
  {
    ToLongOrNullOfLongToString(m);
    ToLongOrNullOfLongToString(n);
  }

  lemma NatToStringHasNo(n: nat, c: char)
    requires !IsDigit(c)
    ensures c !in NatToString(n)
  {
    NatToStringDigits(n);
  }
}
