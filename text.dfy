/**
 * The few java.lang.String operations the node relies on: substring
 * search (`contains`), the text of a possibly-null reference in a
 * concatenation, decimal formatting of integers (`Integer.toString`,
 * `%06d`) and the last path component (`File.getName`).
 */
module Text {
  import opened Wrappers

  /** The path separator; the model describes a Unix host ("/"). */
  const Separator: string := "/"

  /** `sub` occurs in `s` starting at index `i`. */
  predicate StartsAt(s: string, i: int, sub: string) {
    0 <= i && i + |sub| <= |s| && s[i..i + |sub|] == sub
  }

  /** `String.contains`. */
  predicate Contains(s: string, sub: string) {
    exists i | 0 <= i <= |s| :: StartsAt(s, i, sub)
  }

  lemma ContainsAt(s: string, i: int, sub: string)
    requires StartsAt(s, i, sub)
    ensures Contains(s, sub)
  {
  }

  /** An occurrence of `sub` in `b` is an occurrence in `a + b + c`. */
  lemma ContainsInfix(a: string, b: string, c: string, sub: string)
    requires Contains(b, sub)
    ensures Contains(a + b + c, sub)
  {
    var i :| 0 <= i <= |b| && StartsAt(b, i, sub);
    assert (a + b + c)[|a| + i..|a| + i + |sub|] == b[i..i + |sub|];
    ContainsAt(a + b + c, |a| + i, sub);
  }

  /** The text Java's `+` produces for a possibly-null String. */
  function JavaStr(o: Option<string>): string {
    if o.Some? then o.value else "null"
  }

  predicate IsDigit(c: char) {
    '0' <= c <= '9'
  }

  predicate AllDigits(s: string) {
    forall i | 0 <= i < |s| :: IsDigit(s[i])
  }

  function DigitChar(d: nat): (c: char)
    requires d < 10
    ensures IsDigit(c) && c as int - '0' as int == d
  {
    ['0', '1', '2', '3', '4', '5', '6', '7', '8', '9'][d]
  }

  /** The decimal digits of `n`, most significant first, no leading zero. */
  function Digits(n: nat): (r: string)
    ensures |r| >= 1 && AllDigits(r)
    ensures n >= 10 ==> r[0] != '0'
  {
    if n < 10 then [DigitChar(n)] else Digits(n / 10) + [DigitChar(n % 10)]
  }

  /** The number a string of decimal digits denotes. */
  function DecimalValue(s: string): nat
    requires AllDigits(s)
  {
    if s == [] then 0
    else DecimalValue(s[..|s| - 1]) * 10 + (s[|s| - 1] as int - '0' as int)
  }

  lemma {:induction false} DigitsRoundTrip(n: nat)
    ensures DecimalValue(Digits(n)) == n
  {
    if n >= 10 {
      var d := Digits(n / 10) + [DigitChar(n % 10)];
      assert d[..|d| - 1] == Digits(n / 10);
      DigitsRoundTrip(n / 10);
    }
  }

  function Zeros(k: nat): (r: string)
    ensures |r| == k && forall i | 0 <= i < k :: r[i] == '0'
  {
    if k == 0 then "" else Zeros(k - 1) + "0"
  }

  /** Leading zeros do not change the value of a digit string. */
  lemma {:induction false} LeadingZeros(k: nat, s: string)
    requires AllDigits(s)
    ensures AllDigits(Zeros(k) + s)
    ensures DecimalValue(Zeros(k) + s) == DecimalValue(s)
  {
    if s == [] {
      assert Zeros(k) + s == Zeros(k);
      ZerosValue(k);
    } else {
      var t := Zeros(k) + s;
      assert t[..|t| - 1] == Zeros(k) + s[..|s| - 1];
      LeadingZeros(k, s[..|s| - 1]);
    }
  }

  lemma {:induction false} ZerosValue(k: nat)
    ensures AllDigits(Zeros(k)) && DecimalValue(Zeros(k)) == 0
  {
    if k > 0 {
      assert Zeros(k)[..k - 1] == Zeros(k - 1);
      ZerosValue(k - 1);
    }
  }

  /** `String.format("%06d", n)` for a non-negative `n`. */
  function Format06(n: nat): (r: string)
    ensures |r| >= 6 && AllDigits(r)
    ensures DecimalValue(r) == n
    ensures |Digits(n)| >= 6 ==> r == Digits(n)
  {
    var d := Digits(n);
    LeadingZeros(if |d| < 6 then 6 - |d| else 0, d);
    DigitsRoundTrip(n);
    Zeros(if |d| < 6 then 6 - |d| else 0) + d
  }

  /** `%06d` never maps two numbers to the same text. */
  lemma Format06Injective(a: nat, b: nat)
    requires Format06(a) == Format06(b)
    ensures a == b
  {
  }

  /** `Integer.toString(n)` (and so the text of `"" + n`). */
  function IntToString(n: int): (r: string)
    ensures n < 0 <==> (|r| > 0 && r[0] == '-')
    ensures n < 0 ==> AllDigits(r[1..]) && DecimalValue(r[1..]) == -n
    ensures n >= 0 ==> AllDigits(r) && DecimalValue(r) == n
  {
    DigitsRoundTrip(if n < 0 then -n else n);
    if n < 0 then "-" + Digits(-n) else Digits(n)
  }

  /** Index of the last `c` in `s`, or -1 (`String.lastIndexOf`). */
  function LastIndexOf(s: string, c: char): (k: int)
    ensures -1 <= k < |s|
    ensures k >= 0 ==> s[k] == c
    ensures forall j | k < j < |s| :: s[j] != c
  {
    if s == [] then -1
    else if s[|s| - 1] == c then |s| - 1
    else LastIndexOf(s[..|s| - 1], c)
  }

  lemma AppendAssoc(a: string, b: string, c: string)
    ensures (a + b) + c == a + (b + c)
  {
  }

  lemma DropSuffix(a: string, b: string)
    ensures (a + b)[..|a + b| - |b|] == a
  {
    assert (a + b)[..|a|] == a;
  }

  /** `new File(path).getName()`: the text after the last separator. */
  function BaseName(path: string): (r: string)
    ensures forall j | 0 <= j < |r| :: r[j] != Separator[0]
    ensures |r| <= |path|
    ensures path == r || (|r| < |path| && path == path[..|path| - |r| - 1] + Separator + r)
  {
    var k := LastIndexOf(path, Separator[0]);
    assert k >= 0 ==> path == path[..k] + Separator + path[k + 1..];
    path[k + 1..]
  }
}
