/** Characters, C strings and decimal numerals shared by the other modules. */
module Text {

  datatype Option<+T> = None | Some(value: T)

  /** A C++ `std::string` handed over as `c_str()`: everything from the first NUL on is lost. */
  function CStr(s: string): (r: string)
    ensures r <= s && '\0' !in r
    ensures '\0' !in s ==> r == s
  {
    if s == [] || s[0] == '\0' then [] else
      var t := CStr(s[1..]);
      assert s == [s[0]] + s[1..];
      [s[0]] + t
  }

  /** Nothing before the first NUL is lost. */
  lemma {:induction false} CStrStops(s: string)
    ensures |CStr(s)| < |s| ==> s[|CStr(s)|] == '\0'
  {
    if s != [] && s[0] != '\0' {
      CStrStops(s[1..]);
    }
  }

  predicate IsDigit(c: char) { '0' <= c <= '9' }

  predicate AllDigits(s: string) { forall i | 0 <= i < |s| :: IsDigit(s[i]) }

  function DigitChar(d: nat): (c: char)
    requires d < 10
    ensures IsDigit(c) && DigitValue(c) == d
  {
    '0' + d as char
  }

  function DigitValue(c: char): (d: nat)
    requires IsDigit(c)
    ensures d < 10
  {
    (c - '0') as nat
  }

  /** Decimal rendering of a number, as `operator<<` prints it. */
  function Digits(n: nat): (s: string)
    ensures s != [] && AllDigits(s)
  {
    if n < 10 then [DigitChar(n)] else Digits(n / 10) + [DigitChar(n % 10)]
  }

  /** Value of a digit string; the empty string counts as zero. */
  function NumValue(s: string): nat
    requires AllDigits(s)
  {
    if s == [] then 0 else 10 * NumValue(s[..|s| - 1]) + DigitValue(s[|s| - 1])
  }

  /** Reading back what was printed gives the number. */
  lemma {:induction false} NumValueOfDigits(n: nat)
    ensures NumValue(Digits(n)) == n
  {
    if n >= 10 {
      NumValueOfDigits(n / 10);
      assert Digits(n)[..|Digits(n)| - 1] == Digits(n / 10);
    } else {
      assert Digits(n)[..0] == [];
    }
  }

  /** Two numbers that print alike are equal: ids on the wire identify calls. */
  lemma DigitsInjective(m: nat, n: nat)
    requires Digits(m) == Digits(n)
    ensures m == n
  {
    NumValueOfDigits(m);
    NumValueOfDigits(n);
  }

  /** Index of the first character at or after `from` that satisfies `p`, or the length of `s`. */
  function Span(s: string, from: nat, p: char -> bool): (to: nat)
    requires from <= |s|
    ensures from <= to <= |s|
    ensures forall i | from <= i < to :: p(s[i])
    ensures to < |s| ==> !p(s[to])
    decreases |s| - from
  {
    if from < |s| && p(s[from]) then Span(s, from + 1, p) else from
  }

  /** A span is determined by its two defining properties. */
  lemma SpanUnique(s: string, from: nat, to: nat, p: char -> bool)
    requires from <= to <= |s|
    requires forall i | from <= i < to :: p(s[i])
    requires to < |s| ==> !p(s[to])
    ensures Span(s, from, p) == to
  {
  }

  predicate IsUpperHex(c: char) { '0' <= c <= '9' || 'A' <= c <= 'F' }

  function HexChar(d: nat): (c: char)
    requires d < 16
    ensures IsUpperHex(c) && HexValue(c) == d
  {
    if d < 10 then '0' + d as char else 'A' + (d - 10) as char
  }

  function HexValue(c: char): (d: nat)
    requires IsUpperHex(c)
    ensures d < 16
  {
    if c <= '9' then (c - '0') as nat else (c - 'A') as nat + 10
  }

  /** `part` stands in `s` at `i`. */
  predicate At(s: string, i: nat, part: string) {
    i + |part| <= |s| && s[i..i + |part|] == part
  }

  lemma AtSplit(s: string, i: nat, a: string, b: string)
    requires At(s, i, a + b)
    ensures At(s, i, a) && At(s, i + |a|, b)
  {
    assert s[i..i + |a|] == (a + b)[..|a|] == a;
    assert s[i + |a|..i + |a| + |b|] == (a + b)[|a|..] == b;
  }

  lemma AtIndex(s: string, i: nat, part: string, k: nat)
    requires At(s, i, part) && k < |part|
    ensures i + k < |s| && s[i + k] == part[k]
  {
    assert s[i + k] == s[i..i + |part|][k];
  }
}
