/** Character and string helpers shared by the server handler and the browser model. */
module Text {

  /** File contents: the bytes a path holds. */
  type Bytes = seq<bv8>

  /** `\d` of a JavaScript regular expression: an ASCII decimal digit. */
  predicate IsDigit(c: char) { '0' <= c <= '9' }

  predicate AllDigits(s: string) { forall i :: 0 <= i < |s| ==> IsDigit(s[i]) }

  function DigitValue(c: char): (d: nat)
    requires IsDigit(c)
    ensures d < 10
  {
    c as int - '0' as int
  }

  function DigitChar(d: nat): (c: char)
    requires d < 10
    ensures IsDigit(c) && DigitValue(c) == d
  {
    ('0' as int + d) as char
  }

  /** The number a string of decimal digits denotes, most significant digit first. */
  function DigitsToNat(s: string): nat
    requires AllDigits(s)
  {
    if s == [] then 0 else DigitsToNat(s[..|s| - 1]) * 10 + DigitValue(s[|s| - 1])
  }

  /** How a template literal prints a non-negative integer: decimal, no leading zeros. */
  function NatToString(n: nat): (s: string)
    ensures s != [] && AllDigits(s)
    ensures |s| > 1 ==> s[0] != '0'
  {
    if n < 10 then [DigitChar(n)] else NatToString(n / 10) + [DigitChar(n % 10)]
  }

  /** Reading the printed number back gives the number. */
  lemma {:induction false} NatToStringRoundTrip(n: nat)
    ensures DigitsToNat(NatToString(n)) == n
  {
    if n >= 10 {
      var s := NatToString(n);
      assert s[..|s| - 1] == NatToString(n / 10);
      NatToStringRoundTrip(n / 10);
    }
  }

  /** Distinct numbers print differently. */
  lemma NatToStringInjective(a: nat, b: nat)
    requires NatToString(a) == NatToString(b)
    ensures a == b
  {
    NatToStringRoundTrip(a);
    NatToStringRoundTrip(b);
  }

  /** The test `/\.pdf$/i`: the string ends in ".pdf", each letter in either case. */
  predicate EndsWithPdf(s: string) {
    && |s| >= 4
    && s[|s| - 4] == '.'
    && (s[|s| - 3] == 'p' || s[|s| - 3] == 'P')
    && (s[|s| - 2] == 'd' || s[|s| - 2] == 'D')
    && (s[|s| - 1] == 'f' || s[|s| - 1] == 'F')
  }

  lemma EndsWithPdfSuffix(stem: string)
    ensures EndsWithPdf(stem + ".pdf")
  {
  }

  /** Lower-casing of one character; only ASCII letters are mapped (see README). */
  function LowerChar(c: char): char {
    if 'A' <= c <= 'Z' then (c as int + 32) as char else c
  }

  function Lower(s: string): (r: string)
    ensures |r| == |s|
    ensures forall i :: 0 <= i < |s| ==> r[i] == LowerChar(s[i])
  {
    seq(|s|, i requires 0 <= i < |s| => LowerChar(s[i]))
  }

  /** `w` occurs in `s` as a contiguous substring (a regular expression test without anchors). */
  predicate Contains(s: string, w: string) {
    exists i :: 0 <= i <= |s| && OccursAt(s, w, i)
  }

  predicate OccursAt(s: string, w: string, i: nat) {
    i + |w| <= |s| && s[i..i + |w|] == w
  }

  /** The count summary both sides print: `Órdenes: n, Facturas: m`. */
  function CountSummary(nOrders: nat, nInvoices: nat): string {
    "Órdenes: " + NatToString(nOrders) + ", Facturas: " + NatToString(nInvoices)
  }

  /** A run of digits followed by a non-digit is determined by the string it starts. */
  lemma DigitRunPrefixUnique(x: string, r: string, y: string, t: string)
    requires AllDigits(x) && AllDigits(y) && x + r == y + t
    requires r != [] && !IsDigit(r[0]) && t != [] && !IsDigit(t[0])
    ensures x == y && r == t
  {
    var k := if |x| < |y| then |x| else |y|;
    assert (x + r)[k] == (y + t)[k];
    assert x == (x + r)[..|x|] && y == (y + t)[..|y|];
    assert r == (x + r)[|x|..] && t == (y + t)[|y|..];
  }

  /** The summary determines both counts. */
  lemma CountSummaryInjective(n: nat, m: nat, n': nat, m': nat)
    requires CountSummary(n, m) == CountSummary(n', m')
    ensures n == n' && m == m'
  {
    var p := "Órdenes: ";
    var q := ", Facturas: ";
    var a, b, a', b' := NatToString(n), NatToString(m), NatToString(n'), NatToString(m');
    assert p + a + q + b == p + a' + q + b';
    assert a + (q + b) == (p + a + q + b)[|p|..];
    assert a' + (q + b') == (p + a' + q + b')[|p|..];
    DigitRunPrefixUnique(a, q + b, a', q + b');
    assert b == (q + b)[|q|..] && b' == (q + b')[|q|..];
    NatToStringInjective(n, n');
    NatToStringInjective(m, m');
  }

  /** A name built as prefix, number, suffix determines the number. */
  lemma NumberedNameInjective(p: string, a: nat, b: nat, q: string)
    requires p + NatToString(a) + q == p + NatToString(b) + q
    ensures a == b
  {
    var x, y := NatToString(a), NatToString(b);
    assert x + q == (p + x + q)[|p|..];
    assert y + q == (p + y + q)[|p|..];
    assert |x| == |y|;
    assert x == (x + q)[..|x|];
    assert y == (y + q)[..|y|];
    NatToStringInjective(a, b);
  }
}
