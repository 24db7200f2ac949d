/**
 * The parts of Python's `str` behaviour that the object-list code relies on:
 * `str.isspace` (also the meaning of `\s` in a `re` pattern over `str`),
 * `str.strip()`, `str.splitlines()`, `str.startswith`, and the plain-decimal
 * forms accepted by `float()` and `int()`.
 */
module PyText {
  import opened Wrappers
  import opened Text

  /** Characters for which Python's `str.isspace()` holds. */
  predicate IsPySpace(c: char) {
    || c == ' ' || c == '\t' || c == '\n' || c == '\r'
    || c == '\U{0B}' || c == '\U{0C}'
    || ('\U{1C}' <= c <= '\U{1F}')
    || c == '\U{85}' || c == '\U{A0}' || c == '\U{1680}'
    || ('\U{2000}' <= c <= '\U{200A}')
    || c == '\U{2028}' || c == '\U{2029}' || c == '\U{202F}' || c == '\U{205F}' || c == '\U{3000}'
  }

  predicate IsNonSpace(c: char) { !IsPySpace(c) }

  /** Line boundaries recognised by `str.splitlines()`; `\r\n` counts as one. */
  predicate IsLineBreak(c: char) {
    || c == '\n' || c == '\r' || c == '\U{0B}' || c == '\U{0C}'
    || c == '\U{1C}' || c == '\U{1D}' || c == '\U{1E}'
    || c == '\U{85}' || c == '\U{2028}' || c == '\U{2029}'
  }

  predicate IsNotLineBreak(c: char) { !IsLineBreak(c) }

  predicate NoLineBreak(s: string) {
    forall i :: 0 <= i < |s| ==> !IsLineBreak(s[i])
  }

  /** Python's `s.strip()` with no argument. */
  function Strip(s: string): string {
    Trim(s, IsPySpace)
  }

  /** Width of the line boundary at index `k`: 2 for `\r\n`, otherwise 1. */
  function BreakWidth(s: string, k: nat): nat
    requires k < |s|
  {
    if s[k] == '\r' && k + 1 < |s| && s[k + 1] == '\n' then 2 else 1
  }

  /** Python's `s.splitlines()`: no trailing empty piece for a final line break. */
  function SplitLines(s: string): (lines: seq<string>)
    ensures |lines| <= |s|
    ensures forall i :: 0 <= i < |lines| ==> NoLineBreak(lines[i])
    decreases |s|
  {
    if s == [] then []
    else
      var k := Run(s, IsNotLineBreak);
      if k == |s| then [s]
      else [s[..k]] + SplitLines(s[k + BreakWidth(s, k)..])
  }

  /** A line followed by `\n` comes out first, whatever follows it. */
  lemma SplitLinesCons(line: string, rest: string)
    requires NoLineBreak(line)
    ensures SplitLines(line + "\n" + rest) == [line] + SplitLines(rest)
  {
    var s := line + "\n" + rest;
    RunConcat(line, "\n" + rest, IsNotLineBreak);
    assert s == line + ("\n" + rest);
    assert s[|line|] == '\n';
    assert BreakWidth(s, |line|) == 1;
    assert s[..|line|] == line;
    assert s[|line| + 1..] == rest;
  }

  /** Python's `float(s)` for the plain-decimal forms; `None` stands for `ValueError`. */
  function PyFloat(s: string): Option<real> {
    SignedDecimalValue(Strip(s))
  }

  /** Python's `int(s)` for plain integers; `None` stands for `ValueError`. */
  function PyInt(s: string): (r: Option<int>)
    ensures r.Some? ==> PyFloat(s) == Some(r.value as real)
  {
    var t := Strip(s);
    if |t| > 0 && t[0] == '-' && |t| >= 2 && AllDigits(t[1..]) then
      DigitsAreDecimal(t[1..]);
      Some(-(DigitsValue(t[1..]) as int))
    else if |t| > 0 && t[0] == '+' && |t| >= 2 && AllDigits(t[1..]) then
      DigitsAreDecimal(t[1..]);
      Some(DigitsValue(t[1..]))
    else if |t| >= 1 && AllDigits(t) then
      DigitsAreDecimal(t);
      Some(DigitsValue(t))
    else None
  }

  /** Python's `float` reads back `str(float(n))` as `n` when `n` is exactly a float. */
  lemma PyFloatIntPoint(n: int)
    ensures PyFloat(IntText(n) + ".0") == Some(n as real)
  {
    IntPointChars(n);
    IntPointValue(n);
    TrimUnpadded(IntText(n) + ".0", IsPySpace);
  }

  /** Python's `int` reads back the decimal text of an integer. */
  lemma PyIntIntText(n: int)
    ensures PyInt(IntText(n)) == Some(n)
  {
    var t := IntText(n);
    var d := NatText(if n < 0 then -n else n);
    assert t[|t| - 1] == d[|d| - 1];
    TrimUnpadded(t, IsPySpace);
    if n < 0 {
      assert t[1..] == d;
    }
  }
}
