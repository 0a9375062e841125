/** The sequence key of a file name: the first number in it, as extractSeq computes it. */
module SequenceKey {
  import opened Wrappers
  import opened Text

  /** The decimal separators the pattern accepts, `[.,]`. */
  predicate IsSep(c: char) { c == '.' || c == ',' }

  /** Index of the first digit at or after `i`, or |s| when there is none. */
  function FirstDigitFrom(s: string, i: nat): (k: nat)
    requires i <= |s|
    ensures i <= k <= |s|
    ensures forall j :: i <= j < k ==> !IsDigit(s[j])
    ensures k < |s| ==> IsDigit(s[k])
    decreases |s| - i
  {
    if i == |s| || IsDigit(s[i]) then i else FirstDigitFrom(s, i + 1)
  }

  /** End of the longest run of digits that starts at `i` (a greedy `\d*`). */
  function DigitRunEnd(s: string, i: nat): (k: nat)
    requires i <= |s|
    ensures i <= k <= |s|
    ensures forall j :: i <= j < k ==> IsDigit(s[j])
    ensures k < |s| ==> !IsDigit(s[k])
    decreases |s| - i
  {
    if i == |s| || !IsDigit(s[i]) then i else DigitRunEnd(s, i + 1)
  }

  /** Where a match lies: s[start..point] are the integer digits; when point < end, s[point]
      is the separator and s[point + 1..end] are the fraction digits. */
  datatype Span = Span(start: nat, point: nat, end: nat)

  /** `sp` is what a backtracking matcher of /\d+(?:[.,]\d+)?/ finds when it starts at
      sp.start: the greedy digit run, then the fraction only when a separator followed by
      a digit comes next. */
  predicate GreedyMatchAt(s: string, sp: Span) {
    && sp.start < sp.point <= sp.end <= |s|
    && (forall j :: sp.start <= j < sp.point ==> IsDigit(s[j]))
    && (sp.point < |s| ==> !IsDigit(s[sp.point]))
    && if sp.point < sp.end then
         && sp.point + 1 < sp.end
         && IsSep(s[sp.point])
         && (forall j :: sp.point < j < sp.end ==> IsDigit(s[j]))
         && (sp.end < |s| ==> !IsDigit(s[sp.end]))
       else
         !(sp.point + 1 < |s| && IsSep(s[sp.point]) && IsDigit(s[sp.point + 1]))
  }

  /** The leftmost match: no digit occurs before it. */
  predicate IsFirstMatch(s: string, sp: Span) {
    GreedyMatchAt(s, sp) && forall j :: 0 <= j < sp.start ==> !IsDigit(s[j])
  }

  predicate HasNoDigit(s: string) { forall j :: 0 <= j < |s| ==> !IsDigit(s[j]) }

  /** String.prototype.match with /(\d+(?:[.,]\d+)?)/: where its first match is, or None. */
  function FirstMatch(s: string): (m: Option<Span>)
    ensures m.None? <==> HasNoDigit(s)
    ensures m.Some? ==> IsFirstMatch(s, m.value)
  {
    var start := FirstDigitFrom(s, 0);
    if start == |s| then None
    else
      var point := DigitRunEnd(s, start);
      if point + 1 < |s| && IsSep(s[point]) && IsDigit(s[point + 1]) then
        Some(Span(start, point, DigitRunEnd(s, point + 1)))
      else
        Some(Span(start, point, point))
  }

  /** Any index with the defining property of FirstDigitFrom is the one it returns. */
  lemma {:induction false} FirstDigitFromUnique(s: string, i: nat, k: nat)
    requires i <= k <= |s|
    requires forall j :: i <= j < k ==> !IsDigit(s[j])
    requires k < |s| ==> IsDigit(s[k])
    ensures FirstDigitFrom(s, i) == k
    decreases k - i
  {
    if i < k {
      FirstDigitFromUnique(s, i + 1, k);
    }
  }

  /** Any index with the defining property of DigitRunEnd is the one it returns. */
  lemma {:induction false} DigitRunEndUnique(s: string, i: nat, k: nat)
    requires i <= k <= |s|
    requires forall j :: i <= j < k ==> IsDigit(s[j])
    requires k < |s| ==> !IsDigit(s[k])
    ensures DigitRunEnd(s, i) == k
    decreases k - i
  {
    if i < k {
      DigitRunEndUnique(s, i + 1, k);
    }
  }

  /** A matcher cannot stop anywhere else: every leftmost greedy match is the one found. */
  lemma FirstMatchUnique(s: string, sp: Span)
    requires IsFirstMatch(s, sp)
    ensures FirstMatch(s) == Some(sp)
  {
    FirstDigitFromUnique(s, 0, sp.start);
    DigitRunEndUnique(s, sp.start, sp.point);
    if sp.point < sp.end {
      DigitRunEndUnique(s, sp.point + 1, sp.end);
    }
  }

  function Pow10(k: nat): (p: nat)
    ensures p >= 1
  {
    if k == 0 then 1 else 10 * Pow10(k - 1)
  }

  /** The exact number `whole.fraction` written in decimal. */
  function DecimalValue(whole: string, fraction: string): real
    requires AllDigits(whole) && AllDigits(fraction)
  {
    DigitsToNat(whole) as real + DigitsToNat(fraction) as real / Pow10(|fraction|) as real
  }

  /** The exact number the matched text denotes once `,` is read as `.` (what Number gives). */
  function SpanValue(s: string, sp: Span): real
    requires GreedyMatchAt(s, sp)
  {
    if sp.point < sp.end then DecimalValue(s[sp.start..sp.point], s[sp.point + 1..sp.end])
    else DigitsToNat(s[sp.start..sp.point]) as real
  }

  /** extractSeq(name): the value of the first number in the name, or None (NaN) without one. */
  function ExtractSeq(name: string): (k: Option<real>)
    ensures k.None? <==> HasNoDigit(name)
  {
    match FirstMatch(name)
    case None => None
    case Some(sp) => Some(SpanValue(name, sp))
  }

  /** The key is the value of the first match of the pattern, wherever that match is. */
  lemma ExtractSeqIsFirstMatchValue(name: string, sp: Span)
    requires IsFirstMatch(name, sp)
    ensures ExtractSeq(name) == Some(SpanValue(name, sp))
  {
    FirstMatchUnique(name, sp);
  }

  /** A name whose only digits form one run gets that run's number as its key. */
  lemma SingleNumberKey(prefix: string, digits: string, rest: string)
    requires HasNoDigit(prefix) && HasNoDigit(rest)
    requires digits != [] && AllDigits(digits)
    ensures ExtractSeq(prefix + digits + rest) == Some(DigitsToNat(digits) as real)
  {
    var s := prefix + digits + rest;
    var p := |prefix| + |digits|;
    assert forall j :: 0 <= j < |prefix| ==> s[j] == prefix[j];
    assert forall j :: |prefix| <= j < p ==> s[j] == digits[j - |prefix|];
    assert forall j :: p <= j < |s| ==> s[j] == rest[j - p];
    assert s[|prefix|..p] == digits;
    ExtractSeqIsFirstMatchValue(s, Span(|prefix|, p, p));
  }

  /** Where the first match of a name shaped `prefix whole sep fraction rest` lies. */
  lemma DecimalMatch(prefix: string, whole: string, sep: char, fraction: string, rest: string)
    requires HasNoDigit(prefix) && IsSep(sep)
    requires whole != [] && AllDigits(whole) && fraction != [] && AllDigits(fraction)
    requires rest == [] || !IsDigit(rest[0])
    ensures var s, p := prefix + whole + [sep] + fraction + rest, |prefix| + |whole|;
            && FirstMatch(s) == Some(Span(|prefix|, p, p + 1 + |fraction|))
            && s[|prefix|..p] == whole && s[p + 1..p + 1 + |fraction|] == fraction
  {
    var s := prefix + whole + [sep] + fraction + rest;
    var p := |prefix| + |whole|;
    var e := p + 1 + |fraction|;
    assert forall j :: 0 <= j < |prefix| ==> s[j] == prefix[j];
    assert forall j :: |prefix| <= j < p ==> s[j] == whole[j - |prefix|];
    assert s[p] == sep;
    assert forall j :: p < j < e ==> s[j] == fraction[j - p - 1];
    assert e < |s| ==> s[e] == rest[0];
    FirstMatchUnique(s, Span(|prefix|, p, e));
    assert s[|prefix|..p] == whole;
    assert s[p + 1..e] == fraction;
  }

  /** With a separator and a fraction right after the first run, the key is the decimal
      number `whole.fraction`. */
  lemma DecimalKey(prefix: string, whole: string, sep: char, fraction: string, rest: string)
    requires HasNoDigit(prefix) && IsSep(sep)
    requires whole != [] && AllDigits(whole) && fraction != [] && AllDigits(fraction)
    requires rest == [] || !IsDigit(rest[0])
    ensures ExtractSeq(prefix + whole + [sep] + fraction + rest) == Some(DecimalValue(whole, fraction))
  {
    DecimalMatch(prefix, whole, sep, fraction, rest);
  }

  /** Replacing one separator by the other changes no digit. */
  lemma SeparatorSwapMatch(s: string, k: nat, c: char)
    requires k < |s| && IsSep(s[k]) && IsSep(c)
    ensures FirstMatch(s[k := c]) == FirstMatch(s)
  {
    var t := s[k := c];
    assert forall j :: 0 <= j < |s| ==> IsDigit(t[j]) == IsDigit(s[j]) && IsSep(t[j]) == IsSep(s[j]);
    match FirstMatch(s)
    case None =>
      assert HasNoDigit(t);
    case Some(sp) =>
      assert IsFirstMatch(t, sp);
      FirstMatchUnique(t, sp);
  }

  /** `,` and `.` mean the same: swapping one separator for the other keeps the key. */
  lemma SeparatorIrrelevant(s: string, k: nat, c: char)
    requires k < |s| && IsSep(s[k]) && IsSep(c)
    ensures ExtractSeq(s[k := c]) == ExtractSeq(s)
  {
    var t := s[k := c];
    SeparatorSwapMatch(s, k, c);
    match FirstMatch(s)
    case None =>
    case Some(sp) =>
      assert forall j :: 0 <= j < |s| ==> t[j] == (if j == k then c else s[j]);
      assert s[sp.start..sp.point] == t[sp.start..sp.point];
      assert sp.point < sp.end ==> s[sp.point + 1..sp.end] == t[sp.point + 1..sp.end];
  }

  /** "orden2.pdf" has key 2. */
  lemma KeyOfOrden2()
    ensures ExtractSeq("orden2.pdf") == Some(2.0)
  {
    assert "orden2.pdf" == "orden" + "2" + ".pdf";
    SingleNumberKey("orden", "2", ".pdf");
    DigitsToNatSmall();
  }

  /** "orden10.pdf" has key 10. */
  lemma KeyOfOrden10()
    ensures ExtractSeq("orden10.pdf") == Some(10.0)
  {
    assert "orden10.pdf" == "orden" + "10" + ".pdf";
    SingleNumberKey("orden", "10", ".pdf");
    DigitsToNatSmall();
  }

  /** "orden1.pdf" has key 1. */
  lemma KeyOfOrden1()
    ensures ExtractSeq("orden1.pdf") == Some(1.0)
  {
    assert "orden1.pdf" == "orden" + "1" + ".pdf";
    SingleNumberKey("orden", "1", ".pdf");
    DigitsToNatSmall();
  }

  /** A decimal comma: "factura_12,5.pdf" has key 12.5. */
  lemma KeyOfDecimalComma()
    ensures ExtractSeq("factura_12,5.pdf") == Some(12.5)
  {
    DecimalCommaMatch();
    DecimalValueOf12And5();
  }

  lemma DecimalCommaMatch()
    ensures ExtractSeq("factura_12,5.pdf") == Some(DecimalValue("12", "5"))
  {
    assert "factura_12,5.pdf" == "factura_" + "12" + [','] + "5" + ".pdf";
    DecimalKey("factura_", "12", ',', "5", ".pdf");
  }

  lemma DecimalValueOf12And5()
    ensures DecimalValue("12", "5") == 12.5
  {
    DigitsToNatSmall();
  }

  /** A name without digits has no key. */
  lemma KeyOfScan()
    ensures ExtractSeq("scan.pdf") == None
  {
    assert HasNoDigit("scan.pdf");
  }

  lemma DigitsToNatSmall()
    ensures DigitsToNat("1") == 1 && DigitsToNat("2") == 2 && DigitsToNat("5") == 5
    ensures DigitsToNat("10") == 10 && DigitsToNat("12") == 12
  {
    assert "10"[..1] == "1";
    assert "12"[..1] == "1";
  }
}
