/**
 * Language-neutral helpers on strings: digit runs, decimal literals,
 * searching, splitting and trimming. Whitespace is a parameter, because
 * Python's `str.strip` and JavaScript's `String.prototype.trim` disagree on
 * which characters count as whitespace.
 */
module Text {
  import opened Wrappers

  predicate IsDigit(c: char) { '0' <= c <= '9' }

  predicate AllDigits(s: string) {
    forall i :: 0 <= i < |s| ==> IsDigit(s[i])
  }

  /** The natural number written by a string of decimal digits (0 for the empty string). */
  function DigitsValue(s: string): nat
    requires AllDigits(s)
    decreases |s|
  {
    if s == [] then 0
    else 10 * DigitsValue(s[..|s| - 1]) + (s[|s| - 1] as int - '0' as int)
  }

  function Pow10(k: nat): (p: nat)
    ensures p >= 1
  {
    if k == 0 then 1 else 10 * Pow10(k - 1)
  }

  /** Decimal text of a natural number, without leading zeros. */
  function NatText(n: nat): (s: string)
    ensures |s| >= 1 && AllDigits(s) && DigitsValue(s) == n
    ensures s[0] != '0' || n == 0
  {
    if n < 10 then [('0' as int + n) as char]
    else
      var front := NatText(n / 10);
      var s := front + [('0' as int + n % 10) as char];
      assert s[..|s| - 1] == front;
      s
  }

  /** Decimal text of an integer, with a leading `-` when negative. */
  function IntText(n: int): string {
    if n < 0 then "-" + NatText(-n) else NatText(n)
  }

  /** Index of the first occurrence of `c` in `s`, or `|s|` when there is none. */
  function IndexOf(s: string, c: char): (k: nat)
    ensures k <= |s|
    ensures forall i :: 0 <= i < k ==> s[i] != c
    ensures k < |s| ==> s[k] == c
  {
    if s == [] || s[0] == c then 0 else 1 + IndexOf(s[1..], c)
  }

  /** Length of the longest prefix of `s` whose characters all satisfy `p`. */
  function Run(s: string, p: char -> bool): (n: nat)
    ensures n <= |s|
    ensures forall i :: 0 <= i < n ==> p(s[i])
    ensures n < |s| ==> !p(s[n])
  {
    if s == [] || !p(s[0]) then 0 else 1 + Run(s[1..], p)
  }

  /** A run ends exactly where the first character failing `p` starts. */
  lemma RunConcat(a: string, b: string, p: char -> bool)
    requires forall i :: 0 <= i < |a| ==> p(a[i])
    requires b == [] || !p(b[0])
    ensures Run(a + b, p) == |a|
  {
    var s := a + b;
    assert forall i :: 0 <= i < |a| ==> s[i] == a[i];
    if b != [] {
      assert s[|a|] == b[0];
    }
  }

  /** A run stops at or before the first character that fails `p`. */
  lemma RunStops(s: string, j: nat, p: char -> bool)
    requires j < |s| && !p(s[j])
    ensures Run(s, p) <= j
  {
  }

  /** A run that stops inside `a` is not affected by what follows `a`. */
  lemma RunPrefix(a: string, b: string, p: char -> bool)
    requires Run(a, p) < |a|
    ensures Run(a + b, p) == Run(a, p)
  {
    var k := Run(a, p);
    RunConcat(a[..k], a[k..] + b, p);
    assert a[..k] + (a[k..] + b) == a + b;
  }

  lemma SuffixOfConcat(a: string, b: string, j: nat)
    requires j <= |a|
    ensures (a + b)[j..] == a[j..] + b
  {
  }

  lemma PrefixOfConcat(a: string, b: string, j: nat)
    requires j <= |a|
    ensures (a + b)[..j] == a[..j]
  {
  }

  predicate StartsWith(s: string, prefix: string) {
    |prefix| <= |s| && s[..|prefix|] == prefix
  }

  predicate EndsWith(s: string, suffix: string) {
    |suffix| <= |s| && s[|s| - |suffix|..] == suffix
  }

  // ----- splitting on a separator (JavaScript `split` with a one-character string) -----

  /** The pieces between occurrences of `sep`; never empty, as `"".split(":")` is `[""]`. */
  function Split(s: string, sep: char): (parts: seq<string>)
    ensures |parts| >= 1
    ensures forall i :: 0 <= i < |parts| ==> sep !in parts[i]
    decreases |s|
  {
    var k := IndexOf(s, sep);
    if k == |s| then [s] else [s[..k]] + Split(s[k + 1..], sep)
  }

  lemma SplitNoSep(a: string, sep: char)
    requires sep !in a
    ensures Split(a, sep) == [a]
  {
  }

  lemma SplitConcat(a: string, sep: char, b: string)
    requires sep !in a
    ensures Split(a + [sep] + b, sep) == [a] + Split(b, sep)
  {
    var s := a + [sep] + b;
    var k := IndexOf(s, sep);
    assert s[|a|] == sep;
    assert k == |a|;
    assert s[..k] == a;
    assert s[k + 1..] == b;
  }

  // ----- trimming -----

  /** `s` without its leading characters that satisfy `ws`. */
  function TrimLeft(s: string, ws: char -> bool): (r: string)
    ensures |r| <= |s|
  {
    if s != [] && ws(s[0]) then TrimLeft(s[1..], ws) else s
  }

  /** `s` without its trailing characters that satisfy `ws`. */
  function TrimRight(s: string, ws: char -> bool): (r: string)
    ensures |r| <= |s|
  {
    if s != [] && ws(s[|s| - 1]) then TrimRight(s[..|s| - 1], ws) else s
  }

  /** Left trimming removes exactly the maximal prefix of whitespace. */
  lemma {:induction false} TrimLeftRemovesPrefix(s: string, ws: char -> bool)
    ensures var r := TrimLeft(s, ws);
      && r == s[|s| - |r|..]
      && (forall i :: 0 <= i < |s| - |r| ==> ws(s[i]))
      && (r == [] || !ws(r[0]))
    decreases |s|
  {
    if s != [] && ws(s[0]) {
      TrimLeftRemovesPrefix(s[1..], ws);
    }
  }

  /** Right trimming removes exactly the maximal suffix of whitespace. */
  lemma {:induction false} TrimRightRemovesSuffix(s: string, ws: char -> bool)
    ensures var r := TrimRight(s, ws);
      && r == s[..|r|]
      && (forall i :: |r| <= i < |s| ==> ws(s[i]))
      && (r == [] || !ws(r[|r| - 1]))
    decreases |s|
  {
    if s != [] && ws(s[|s| - 1]) {
      TrimRightRemovesSuffix(s[..|s| - 1], ws);
    }
  }

  function Trim(s: string, ws: char -> bool): string {
    TrimRight(TrimLeft(s, ws), ws)
  }

  /** A leading non-whitespace character shields the rest from left trimming. */
  lemma {:induction false} TrimRightCons(c: char, t: string, ws: char -> bool)
    requires !ws(c)
    ensures TrimRight([c] + t, ws) == [c] + TrimRight(t, ws)
    decreases |t|
  {
    var s := [c] + t;
    if t != [] && ws(t[|t| - 1]) {
      assert s[|s| - 1] == t[|t| - 1];
      assert s[..|s| - 1] == [c] + t[..|t| - 1];
      TrimRightCons(c, t[..|t| - 1], ws);
    }
  }

  /** A string that starts and ends with non-whitespace is its own trim. */
  lemma TrimUnpadded(s: string, ws: char -> bool)
    requires s != [] && !ws(s[0]) && !ws(s[|s| - 1])
    ensures Trim(s, ws) == s
  {
  }

  // ----- decimal literals -----

  /**
   * A plain unsigned decimal: digits with at most one `.` and at least one
   * digit, such as `12`, `12.5`, `.5` or `12.`.
   */
  predicate IsUnsignedDecimal(s: string) {
    var k := IndexOf(s, '.');
    && AllDigits(s[..k])
    && (k < |s| ==> AllDigits(s[k + 1..]))
    && (if k < |s| then |s| >= 2 else |s| >= 1)
  }

  /** The value of the digits after a decimal point: `FractionValue("25") == 0.25`. */
  function FractionValue(s: string): (v: real)
    requires AllDigits(s)
    ensures 0.0 <= v <= 1.0
  {
    if s == [] then 0.0
    else ((s[0] as int - '0' as int) as real + FractionValue(s[1..])) / 10.0
  }

  /** The exact value of a plain unsigned decimal. */
  function UnsignedDecimalValue(s: string): (v: real)
    requires IsUnsignedDecimal(s)
    ensures v >= 0.0
  {
    var k := IndexOf(s, '.');
    DigitsValue(s[..k]) as real + (if k < |s| then FractionValue(s[k + 1..]) else 0.0)
  }

  /** A string of digits alone reads as its integer value. */
  lemma DigitsAreDecimal(s: string)
    requires |s| >= 1 && AllDigits(s)
    ensures IsUnsignedDecimal(s) && UnsignedDecimalValue(s) == DigitsValue(s) as real
  {
    var k := IndexOf(s, '.');
    assert s[..k] == s;
  }

  /** `d.f` for digit strings `d` (non-empty) and `f` is the decimal `d + 0.f`. */
  lemma PointDecimal(d: string, f: string)
    requires |d| >= 1 && AllDigits(d) && AllDigits(f)
    ensures IsUnsignedDecimal(d + "." + f)
    ensures UnsignedDecimalValue(d + "." + f) == DigitsValue(d) as real + FractionValue(f)
  {
    var s := d + "." + f;
    assert s[|d|] == '.';
    assert forall i :: 0 <= i < |d| ==> s[i] == d[i];
    assert IndexOf(s, '.') == |d|;
    assert s[..|d|] == d;
    assert s[|d| + 1..] == f;
  }

  lemma NatPointValue(k: nat)
    ensures IsUnsignedDecimal(NatText(k) + "." + "0")
    ensures UnsignedDecimalValue(NatText(k) + "." + "0") == k as real
  {
    PointDecimal(NatText(k), "0");
    assert FractionValue("0") == 0.0 by {
      assert "0"[1..] == [];
    }
  }

  /** `IntText(n) + ".0"`, the text Python prints for an integral float, is a signed plain decimal of value `n`. */
  lemma IntPointValue(n: int)
    ensures SignedDecimalValue(IntText(n) + ".0") == Some(n as real)
  {
    var d := NatText(if n < 0 then -n else n);
    var u := d + "." + "0";
    NatPointValue(if n < 0 then -n else n);
    if n < 0 {
      assert IntText(n) + ".0" == "-" + u;
      assert ("-" + u)[1..] == u;
      assert SignedDecimalValue("-" + u) == Some(-UnsignedDecimalValue(u));
    } else {
      assert IntText(n) + ".0" == u;
      assert u[0] == d[0] && IsDigit(u[0]);
      assert SignedDecimalValue(u) == Some(UnsignedDecimalValue(u));
    }
  }

  /** Every character of `IntText(n) + ".0"` is a digit, a `.` or a leading `-`, and it ends in `0`. */
  lemma IntPointChars(n: int)
    ensures var t := IntText(n) + ".0";
      && |t| >= 3 && t[|t| - 1] == '0'
      && (forall i :: 0 <= i < |t| ==> IsDigit(t[i]) || t[i] == '.' || t[i] == '-')
      && (IsDigit(t[0]) || t[0] == '-')
  {
    var d := NatText(if n < 0 then -n else n);
    var u := d + "." + "0";
    assert forall i :: 0 <= i < |d| ==> u[i] == d[i];
    if n < 0 {
      assert IntText(n) + ".0" == "-" + u;
    } else {
      assert IntText(n) + ".0" == u;
    }
  }

  /**
   * A plain decimal with an optional leading `+` or `-`: the common part of
   * what Python's `float()` and JavaScript's `Number()` accept.
   */
  function SignedDecimalValue(s: string): (r: Option<real>)
  {
    if |s| > 0 && s[0] == '-' then
      if IsUnsignedDecimal(s[1..]) then Some(-UnsignedDecimalValue(s[1..])) else None
    else if |s| > 0 && s[0] == '+' then
      if IsUnsignedDecimal(s[1..]) then Some(UnsignedDecimalValue(s[1..])) else None
    else if IsUnsignedDecimal(s) then Some(UnsignedDecimalValue(s))
    else None
  }
}
