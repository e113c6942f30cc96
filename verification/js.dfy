/** The few JavaScript built-ins the controllers lean on, restricted to what they
    are given here: `trim` and the `\s` class, `Number(...)`, `parseInt(...)`,
    ASCII `toLowerCase`, and `String.prototype.split` on one character. */
module Js {

  /** `undefined` (or `null`) versus a present value. */
  datatype Option<+T> = None | Some(value: T)

  /** WhiteSpace and LineTerminator of ECMAScript: what `trim` strips and `\s` matches. */
  predicate IsSpace(c: char) {
    || c == '\t' || c == '\n' || c == '\U{B}' || c == '\U{C}' || c == '\r' || c == ' '
    || c == '\U{A0}' || c == '\U{1680}' || ('\U{2000}' <= c <= '\U{200A}')
    || c == '\U{2028}' || c == '\U{2029}' || c == '\U{202F}' || c == '\U{205F}'
    || c == '\U{3000}' || c == '\U{FEFF}'
  }

  predicate NoSpaceAtEnds(s: string) {
    s == [] || (!IsSpace(s[0]) && !IsSpace(s[|s| - 1]))
  }

  /** `s.trimStart()` */
  function TrimStart(s: string): (r: string)
    ensures |r| <= |s| && r == s[|s| - |r|..]
    ensures r == [] || !IsSpace(r[0])
    ensures forall i :: 0 <= i < |s| - |r| ==> IsSpace(s[i])
  {
    if s != [] && IsSpace(s[0]) then TrimStart(s[1..]) else s
  }

  /** `s.trimEnd()` */
  function TrimEnd(s: string): (r: string)
    ensures |r| <= |s| && r == s[..|r|]
    ensures r == [] || !IsSpace(r[|r| - 1])
    ensures forall i :: |r| <= i < |s| ==> IsSpace(s[i])
  {
    if s != [] && IsSpace(s[|s| - 1]) then TrimEnd(s[..|s| - 1]) else s
  }

  /** `s.trim()`: the longest infix of `s` with no whitespace at either end, obtained
      by dropping only whitespace. */
  function Trim(s: string): (r: string)
    ensures NoSpaceAtEnds(r)
  {
    TrimEnd(TrimStart(s))
  }

  /** Where `Trim(s)` sits in `s`: only whitespace lies outside `s[i..j]`. */
  lemma TrimSpan(s: string) returns (i: nat, j: nat)
    ensures i <= j <= |s| && Trim(s) == s[i..j]
    ensures forall k :: 0 <= k < i ==> IsSpace(s[k])
    ensures forall k :: j <= k < |s| ==> IsSpace(s[k])
  {
    var t := TrimStart(s);
    var r := TrimEnd(t);
    i, j := |s| - |t|, |s| - |t| + |r|;
    assert r == s[i..j];
    forall k | j <= k < |s| ensures IsSpace(s[k]) {
      assert s[k] == t[k - i];
    }
  }

  /** Trimming a string that has no whitespace at its ends gives it back. */
  lemma TrimNoSpace(s: string)
    requires NoSpaceAtEnds(s)
    ensures Trim(s) == s
  {
  }

  predicate IsDigit(c: char) {
    '0' <= c <= '9'
  }

  /** A non-empty run of ASCII decimal digits. */
  predicate IsDecimal(s: string) {
    |s| > 0 && forall i :: 0 <= i < |s| ==> IsDigit(s[i])
  }

  function DigitValue(c: char): nat
    requires IsDigit(c)
  {
    c as int - '0' as int
  }

  function DigitChar(d: nat): (c: char)
    requires d < 10
    ensures IsDigit(c) && DigitValue(c) == d
  {
    ('0' as int + d) as char
  }

  /** The value of a string of decimal digits, most significant first. */
  function DecimalValue(s: string): nat
    requires forall i :: 0 <= i < |s| ==> IsDigit(s[i])
  {
    if s == [] then 0 else DecimalValue(s[..|s| - 1]) * 10 + DigitValue(s[|s| - 1])
  }

  /** The decimal rendering of `n`, as `String(n)` prints it. */
  function Digits(n: nat): string
  {
    if n < 10 then [DigitChar(n)] else Digits(n / 10) + [DigitChar(n % 10)]
  }

  /** Rendering a number in decimal and reading it back gives the number. */
  lemma {:induction false} DigitsRoundTrip(n: nat)
    ensures IsDecimal(Digits(n))
    ensures DecimalValue(Digits(n)) == n
  {
    if n >= 10 {
      DigitsRoundTrip(n / 10);
      var d := Digits(n);
      assert d[..|d| - 1] == Digits(n / 10);
    }
  }

  /** `Number(s)` for the strings this model admits: surrounding whitespace is
      ignored, the empty string is 0, an optionally signed run of decimal digits is
      its value, and everything else is `NaN` (`None`). */
  function ToNumber(s: string): Option<int>
  {
    var t := Trim(s);
    if t == [] then Some(0)
    else if t[0] == '-' && IsDecimal(t[1..]) then Some(-(DecimalValue(t[1..]) as int))
    else if t[0] == '+' && IsDecimal(t[1..]) then Some(DecimalValue(t[1..]))
    else if IsDecimal(t) then Some(DecimalValue(t))
    else None
  }

  /** Blank text reads as 0, a run of decimal digits as its value, and only an
      optionally signed run of digits has a value. */
  lemma NumberReads(s: string)
    ensures Trim(s) == [] ==> ToNumber(s) == Some(0)
    ensures IsDecimal(Trim(s)) ==> ToNumber(s) == Some(DecimalValue(Trim(s)))
    ensures ToNumber(s).Some? ==>
              var t := Trim(s); t == [] || IsDecimal(t) || ((t[0] == '-' || t[0] == '+') && IsDecimal(t[1..]))
  {
  }

  /** `Number(String(n))` is `n`. */
  lemma NumberOfDigits(n: nat)
    ensures ToNumber(Digits(n)) == Some(n)
  {
    DigitsRoundTrip(n);
    NumberOfDecimal(Digits(n));
  }

  /** `Number` of a run of decimal digits is its decimal value. */
  lemma NumberOfDecimal(s: string)
    requires IsDecimal(s)
    ensures ToNumber(s) == Some(DecimalValue(s))
  {
    assert IsDigit(s[0]) && IsDigit(s[|s| - 1]);
    TrimNoSpace(s);
  }

  /** `ToNumber` is `NaN` on a string holding a character that is neither a digit,
      a sign nor whitespace. */
  lemma NumberRejects(s: string, i: nat)
    requires i < |s| && !IsDigit(s[i]) && !IsSpace(s[i]) && s[i] != '-' && s[i] != '+'
    ensures ToNumber(s) == None
  {
    var t := Trim(s);
    var a, b := TrimSpan(s);
    assert a <= i < b;
    assert t[i - a] == s[i];
    if t[0] == '-' || t[0] == '+' {
      assert i - a > 0;
      assert t[1..][i - a - 1] == s[i];
    }
  }

  /** The longest prefix of `s` made of characters satisfying `p`. */
  function PrefixWhile(s: string, p: char -> bool): (r: string)
    ensures |r| <= |s| && r == s[..|r|]
    ensures forall i :: 0 <= i < |r| ==> p(r[i])
    ensures |r| < |s| ==> !p(s[|r|])
  {
    if s != [] && p(s[0]) then [s[0]] + PrefixWhile(s[1..], p) else []
  }

  predicate IsHexDigit(c: char) {
    IsDigit(c) || 'a' <= c <= 'f' || 'A' <= c <= 'F'
  }

  function HexDigitValue(c: char): nat
    requires IsHexDigit(c)
  {
    if IsDigit(c) then DigitValue(c)
    else if 'a' <= c <= 'f' then c as int - 'a' as int + 10
    else c as int - 'A' as int + 10
  }

  function HexValue(s: string): nat
    requires forall i :: 0 <= i < |s| ==> IsHexDigit(s[i])
  {
    if s == [] then 0 else HexValue(s[..|s| - 1]) * 16 + HexDigitValue(s[|s| - 1])
  }

  /** `parseInt(s)` with no radix: leading whitespace is skipped, one sign is read,
      a `0x`/`0X` prefix selects base 16, and the longest run of digits that follows
      is the value; no digit at all is `NaN` (`None`). */
  function ParseInt(s: string): Option<int>
  {
    var t := TrimStart(s);
    var sign := if t != [] && t[0] == '-' then -1 else 1;
    var u := Unsigned(s);
    if |u| >= 2 && u[0] == '0' && (u[1] == 'x' || u[1] == 'X') then
      var h := PrefixWhile(u[2..], IsHexDigit);
      if h == [] then None else Some(sign * HexValue(h))
    else
      var d := PrefixWhile(u, IsDigit);
      if d == [] then None else Some(sign * DecimalValue(d))
  }

  /** What `parseInt` reads its digits from: the text after leading whitespace and
      one sign. */
  function Unsigned(s: string): string {
    var t := TrimStart(s);
    if t != [] && (t[0] == '-' || t[0] == '+') then t[1..] else t
  }

  /** `parseInt` has a value only when a digit follows the leading whitespace and
      sign, and always has one then, unless the digits start `0x`. */
  lemma ParseIntReads(s: string)
    ensures var u := Unsigned(s);
            && (ParseInt(s).Some? ==> u != [] && IsDigit(u[0]))
            && (u != [] && IsDigit(u[0]) && !(|u| >= 2 && u[0] == '0' && (u[1] == 'x' || u[1] == 'X')) ==> ParseInt(s).Some?)
  {
  }

  /** `parseInt` reads a decimal number and ignores whatever follows its last digit. */
  lemma ParseIntOfDigits(n: nat, rest: string)
    requires rest == [] || !IsDigit(rest[0])
    requires n > 0 || rest == [] || (rest[0] != 'x' && rest[0] != 'X')
    ensures ParseInt(Digits(n) + rest) == Some(n)
  {
    DigitsRoundTrip(n);
    var d := Digits(n);
    var s := d + rest;
    assert s[0] == d[0] && !IsSpace(s[0]);
    assert TrimStart(s) == s;
    if n > 0 {
      assert |d| >= 2 ==> d[0] != '0' by {
        if |d| >= 2 { LeadingDigitNonZero(n); }
      }
    }
    var p := PrefixWhile(s, IsDigit);
    assert p == d by {
      PrefixWhileOfRun(d, rest, IsDigit);
    }
  }

  /** The decimal rendering of a number of two or more digits does not start with 0. */
  lemma {:induction false} LeadingDigitNonZero(n: nat)
    requires n >= 10
    ensures Digits(n)[0] != '0'
  {
    if n / 10 >= 10 {
      LeadingDigitNonZero(n / 10);
    }
  }

  lemma {:induction false} PrefixWhileOfRun(a: string, b: string, p: char -> bool)
    requires forall i :: 0 <= i < |a| ==> p(a[i])
    requires b == [] || !p(b[0])
    ensures PrefixWhile(a + b, p) == a
  {
    if a != [] {
      assert (a + b)[1..] == a[1..] + b;
      PrefixWhileOfRun(a[1..], b, p);
    }
  }

  /** ASCII upper-case letters map to lower case; every other character is kept. */
  function LowerChar(c: char): (r: char)
    ensures 'A' <= c <= 'Z' ==> 'a' <= r <= 'z' && r as int - 'a' as int == c as int - 'A' as int
    ensures !('A' <= c <= 'Z') ==> r == c
  {
    if 'A' <= c <= 'Z' then (c as int + 32) as char else c
  }

  /** `s.toLowerCase()`, character by character (ASCII letters only). */
  function Lower(s: string): (r: string)
    ensures |r| == |s|
  {
    seq(|s|, i requires 0 <= i < |s| => LowerChar(s[i]))
  }

  /** The text before the first `c` in `s`, or all of `s`: `s.split(c)[0]`. */
  function Before(s: string, c: char): (r: string)
    ensures |r| <= |s| && r == s[..|r|]
    ensures c !in r
    ensures |r| < |s| ==> s[|r|] == c
  {
    if s == [] || s[0] == c then [] else [s[0]] + Before(s[1..], c)
  }

  /** The text after the first `c` in `s`. */
  function After(s: string, c: char): (r: string)
    requires c in s
    ensures |Before(s, c)| < |s| && r == s[|Before(s, c)| + 1..]
  {
    if s[0] == c then s[1..] else After(s[1..], c)
  }

  /** `s.split(c)[1]` when `s` contains `c`: what lies between the first `c` and the
      next one (or the end). */
  function SecondField(s: string, c: char): (r: string)
    requires c in s
    ensures c !in r
  {
    Before(After(s, c), c)
  }

  lemma {:induction false} SecondFieldOf(a: string, c: char, b: string, rest: string)
    requires c !in a && c !in b
    requires rest == [] || rest[0] == c
    ensures c in a + [c] + b + rest
    ensures SecondField(a + [c] + b + rest, c) == b
  {
    var t := b + rest;
    assert a + [c] + b + rest == a + [c] + t;
    AfterOfRun(a, c, t);
    BeforeOfRun(b, rest, c);
  }

  lemma {:induction false} AfterOfRun(a: string, c: char, b: string)
    requires c !in a
    ensures c in a + [c] + b && After(a + [c] + b, c) == b
  {
    var s := a + [c] + b;
    assert s[|a|] == c;
    if a != [] {
      assert s[1..] == a[1..] + [c] + b;
      AfterOfRun(a[1..], c, b);
    }
  }

  lemma {:induction false} BeforeOfRun(a: string, b: string, c: char)
    requires c !in a
    requires b == [] || b[0] == c
    ensures Before(a + b, c) == a
  {
    if a != [] {
      assert (a + b)[1..] == a[1..] + b;
      BeforeOfRun(a[1..], b, c);
    }
  }
}
