/** The pieces of the Kotlin standard library (on the JVM) that the app's logic
    relies on: whitespace, `trim`, `isBlank`, `take`, `replace`, `Long.toString`,
    truncating `/` and `%`, and `String.compareTo`. */
module KotlinStd {
  import opened Wrappers

  // ---------------------------------------------------------------------------
  // Whitespace, isBlank, trim

  /** `Char.isWhitespace()` on the JVM: `Character.isWhitespace(c) ||
      Character.isSpaceChar(c)`, i.e. the ASCII controls TAB..CR and FS..US plus
      every space, line and paragraph separator of Unicode. */
  predicate IsWhitespace(c: char) {
    || ('\t' <= c <= '\r')
    || ('\U{1C}' <= c <= '\U{1F}')
    || c == ' ' || c == '\U{A0}' || c == '\U{1680}'
    || ('\U{2000}' <= c <= '\U{200A}')
    || c == '\U{2028}' || c == '\U{2029}' || c == '\U{202F}' || c == '\U{205F}'
    || c == '\U{3000}'
  }

  /** `CharSequence.isBlank()`: empty or whitespace only. */
  predicate IsBlank(s: string) {
    forall i :: 0 <= i < |s| ==> IsWhitespace(s[i])
  }

  /** Drops the leading whitespace. */
  function TrimStart(s: string): (r: string)
    ensures |r| <= |s| && r == s[|s| - |r|..]
    ensures IsBlank(s[..|s| - |r|])
    ensures r == [] || !IsWhitespace(r[0])
  {
    if |s| > 0 && IsWhitespace(s[0]) then
      var r := TrimStart(s[1..]);
      assert s[..|s| - |r|] == [s[0]] + s[1..][..|s| - 1 - |r|];
      r
    else s
  }

  /** Drops the trailing whitespace. */
  function TrimEnd(s: string): (r: string)
    ensures |r| <= |s| && r == s[..|r|]
    ensures IsBlank(s[|r|..])
    ensures r == [] || !IsWhitespace(r[|r| - 1])
  {
    if |s| > 0 && IsWhitespace(s[|s| - 1]) then
      var r := TrimEnd(s[..|s| - 1]);
      assert s[|r|..] == s[..|s| - 1][|r|..] + [s[|s| - 1]];
      r
    else s
  }

  /** `String.trim()`: what is left after dropping the whitespace at both
      ends; it starts at offset `Indent(s)` of `s`. */
  function Trim(s: string): (r: string)
    ensures r == [] || (!IsWhitespace(r[0]) && !IsWhitespace(r[|r| - 1]))
    ensures Indent(s) + |r| <= |s| && r == s[Indent(s)..Indent(s) + |r|]
    ensures IsBlank(s[..Indent(s)]) && IsBlank(s[Indent(s) + |r|..])
  {
    var t := TrimStart(s);
    var r := TrimEnd(t);
    TrimSlices(s, t, r);
    r
  }

  /** A prefix `r` of a suffix `t` of `s` is a slice of `s`, and what `s` has
      around it is blank when what was dropped each time is. */
  lemma TrimSlices(s: string, t: string, r: string)
    requires |t| <= |s| && t == s[|s| - |t|..] && IsBlank(s[..|s| - |t|])
    requires |r| <= |t| && r == t[..|r|] && IsBlank(t[|r|..])
    ensures var i := |s| - |t|;
      && r == s[i..i + |r|]
      && IsBlank(s[..i])
      && IsBlank(s[i + |r|..])
      && (r != [] ==> r[0] == t[0])
  {
    var i := |s| - |t|;
    assert s[i + |r|..] == t[|r|..];
  }

  /** The number of whitespace characters `trim` drops at the start. */
  function Indent(s: string): (n: nat)
    ensures n <= |s|
  {
    |s| - |TrimStart(s)|
  }

  /** `isBlank` is the same as "trims to the empty string". */
  lemma BlankIffTrimsToEmpty(s: string)
    ensures IsBlank(s) <==> Trim(s) == ""
  {
    var r := Trim(s);
    var i := Indent(s);
    if r == "" {
      var t := TrimStart(s);
      assert t[|r|..] == t;
      assert s[..i] == s;
    } else {
      assert r[0] == s[i] && !IsWhitespace(s[i]);
    }
  }

  /** Trimming twice is trimming once. */
  lemma TrimIdempotent(s: string)
    ensures Trim(Trim(s)) == Trim(s)
  {
    var r := Trim(s);
    assert TrimStart(r) == r;
    assert TrimEnd(r) == r;
  }

  /** A string is blank exactly when its trimmed form is. */
  lemma {:induction false} TrimPreservesBlankness(s: string)
    ensures IsBlank(Trim(s)) <==> IsBlank(s)
  {
    BlankIffTrimsToEmpty(s);
    BlankIffTrimsToEmpty(Trim(s));
    TrimIdempotent(s);
  }

  // ---------------------------------------------------------------------------
  // take, replace

  /** `String.take(n)`: the first `n` characters, or all of them if fewer. */
  function Take(s: string, n: nat): (r: string)
    ensures |r| == if |s| < n then |s| else n
    ensures r == s[..|r|]
  {
    if |s| <= n then s else s[..n]
  }

  /** `String.replace(old, new)` for one-character `old` and `new`: every
      occurrence is replaced. */
  function ReplaceAll(s: string, from: char, to: char): (r: string)
    ensures |r| == |s|
    ensures forall i :: 0 <= i < |s| ==> r[i] == (if s[i] == from then to else s[i])
    ensures from != to ==> from !in r
  {
    seq(|s|, i requires 0 <= i < |s| => if s[i] == from then to else s[i])
  }


  // ---------------------------------------------------------------------------
  // Decimal digits, Long.toString

  predicate IsDigit(c: char) {
    '0' <= c <= '9'
  }

  /** The decimal digit `d` as a character. */
  function DigitChar(d: int): (c: char)
    requires 0 <= d <= 9
    ensures IsDigit(c) && DigitValue(c) == d
  {
    ((('0' as int) + d) as char)
  }

  /** The value of a decimal digit character (the JVM's standard decimal
      style accepts the ASCII digits only). */
  function DigitValue(c: char): (d: int)
    requires IsDigit(c)
    ensures 0 <= d <= 9
  {
    (c as int) - ('0' as int)
  }

  predicate AllDigits(s: string) {
    forall i :: 0 <= i < |s| ==> IsDigit(s[i])
  }

  /** The number a string of decimal digits denotes. */
  function DigitsValue(s: string): (n: nat)
    requires AllDigits(s)
  {
    if s == [] then 0 else DigitsValue(s[..|s| - 1]) * 10 + DigitValue(s[|s| - 1])
  }

  /** Decimal rendering of a natural number, without leading zeros. */
  function NatToString(n: nat): (r: string)
    ensures |r| >= 1 && AllDigits(r)
    ensures |r| > 1 ==> r[0] != '0'
  {
    if n < 10 then [DigitChar(n)] else NatToString(n / 10) + [DigitChar(n % 10)]
  }

  /** `Long.toString()` / string templates: a '-' before the digits of a
      negative number. */
  function IntToString(n: int): (r: string)
    ensures |r| >= 1 && forall i :: 0 <= i < |r| ==> r[i] == '-' || IsDigit(r[i])
  {
    if n < 0 then "-" + NatToString(-n) else NatToString(n)
  }

  /** `String.toLong()` restricted to the shapes `IntToString` produces; the
      reference against which `IntToString` is checked. */
  function ParseInt(s: string): (r: Option<int>)
  {
    if |s| >= 2 && s[0] == '-' && AllDigits(s[1..]) then
      var v: int := DigitsValue(s[1..]); Some(-v)
    else if |s| >= 1 && AllDigits(s) then Some(DigitsValue(s))
    else None
  }

  lemma {:induction false} NatToStringRoundTrip(n: nat)
    ensures DigitsValue(NatToString(n)) == n
  {
    if n >= 10 {
      NatToStringRoundTrip(n / 10);
      var s := NatToString(n);
      assert s[..|s| - 1] == NatToString(n / 10);
    }
  }

  /** Rendering a Long and reading it back gives the same number, so the
      rendering loses nothing. */
  lemma IntToStringRoundTrip(n: int)
    ensures ParseInt(IntToString(n)) == Some(n)
  {
    if n < 0 {
      NatToStringRoundTrip(-n);
      assert IntToString(n)[1..] == NatToString(-n);
    } else {
      NatToStringRoundTrip(n);
    }
  }

  lemma IntToStringInjective(a: int, b: int)
    requires IntToString(a) == IntToString(b)
    ensures a == b
  {
    IntToStringRoundTrip(a);
    IntToStringRoundTrip(b);
  }

  // ---------------------------------------------------------------------------
  // Long division and remainder (truncating toward zero)

  /** Kotlin's `/` on `Long`: the quotient rounded toward zero, unlike
      Dafny's Euclidean `/`. */
  function TruncDiv(a: int, b: int): int
    requires b != 0
  {
    if b > 0 then (if a >= 0 then a / b else -((-a) / b))
    else (if a >= 0 then -(a / -b) else (-a) / (-b))
  }

  /** Kotlin's `%` on `Long`: the remainder takes the sign of the dividend. */
  function TruncRem(a: int, b: int): int
    requires b != 0
  {
    a - b * TruncDiv(a, b)
  }

  /** Quotient and remainder recombine to the dividend; the remainder is
      smaller than the divisor and is zero or has the dividend's sign. */
  lemma TruncDivRem(a: int, b: int)
    requires b != 0
    ensures a == b * TruncDiv(a, b) + TruncRem(a, b)
    ensures -(if b > 0 then b else -b) < TruncRem(a, b) < (if b > 0 then b else -b)
    ensures a >= 0 ==> TruncRem(a, b) >= 0
    ensures a <= 0 ==> TruncRem(a, b) <= 0
  {
    if b > 0 {
      TruncDivRemPositive(a, b);
    } else {
      TruncDivRemPositive(a, -b);
      assert TruncDiv(a, b) == -TruncDiv(a, -b);
      assert b * TruncDiv(a, b) == (-b) * TruncDiv(a, -b);
    }
  }

  /** The case of a positive divisor. */
  lemma TruncDivRemPositive(a: int, b: int)
    requires b > 0
    ensures -b < TruncRem(a, b) < b
    ensures a >= 0 ==> TruncRem(a, b) >= 0
    ensures a <= 0 ==> TruncRem(a, b) <= 0
  {
    if a >= 0 {
      assert TruncRem(a, b) == a % b;
    } else {
      var q := (-a) / b;
      assert -a == b * q + (-a) % b;
      assert TruncDiv(a, b) == -q;
      assert b * -q == -(b * q);
      assert TruncRem(a, b) == -((-a) % b);
    }
  }

  /** Negating the dividend negates the quotient. */
  lemma TruncDivNegate(a: int, b: int)
    requires b > 0
    ensures TruncDiv(-a, b) == -TruncDiv(a, b)
  {
  }

  // ---------------------------------------------------------------------------
  // String.compareTo

  /** `a < b` under `String.compareTo`: lexicographic on character codes,
      a proper prefix before its extensions. (Dafny's `<` on sequences is
      "proper prefix", which is not this order.) */
  predicate LexLess(a: string, b: string)
    decreases |a|
  {
    if a == [] then b != []
    else b != [] && (a[0] < b[0] || (a[0] == b[0] && LexLess(a[1..], b[1..])))
  }

  lemma {:induction false} LexLessIrreflexive(a: string)
    ensures !LexLess(a, a)
    decreases |a|
  {
    if a != [] { LexLessIrreflexive(a[1..]); }
  }

  lemma {:induction false} LexLessTransitive(a: string, b: string, c: string)
    requires LexLess(a, b) && LexLess(b, c)
    ensures LexLess(a, c)
    decreases |a|
  {
    if a != [] && a[0] == b[0] && b[0] == c[0] {
      LexLessTransitive(a[1..], b[1..], c[1..]);
    }
  }

  /** Two different strings are always ordered one way or the other. */
  lemma {:induction false} LexLessTotal(a: string, b: string)
    requires a != b
    ensures LexLess(a, b) || LexLess(b, a)
    decreases |a|
  {
    if a != [] && b != [] && a[0] == b[0] {
      assert a == [a[0]] + a[1..] && b == [b[0]] + b[1..];
      LexLessTotal(a[1..], b[1..]);
    }
  }

  lemma {:induction false} LexLessAsymmetric(a: string, b: string)
    requires LexLess(a, b)
    ensures !LexLess(b, a)
  {
    if LexLess(b, a) {
      LexLessTransitive(a, b, a);
      LexLessIrreflexive(a);
    }
  }
}
