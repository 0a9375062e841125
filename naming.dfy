/** The download name of each merged pair: a base name built from the order's original
    name, then an `_n` suffix while that name is already taken in the batch. */
module Naming {
  import opened Wrappers
  import opened Text

  // ---------------------------------------------------------------------------------
  // String.prototype.trim
  // ---------------------------------------------------------------------------------

  /** The characters `trim` removes: ECMAScript WhiteSpace and LineTerminator. */
  predicate IsTrimmable(c: char) {
    || c == ' ' || c == '\t' || c == '\n' || c == '\r' || c == '\U{000B}' || c == '\U{000C}'
    || c == '\U{00A0}' || c == '\U{1680}' || ('\U{2000}' <= c <= '\U{200A}')
    || c == '\U{2028}' || c == '\U{2029}' || c == '\U{202F}' || c == '\U{205F}'
    || c == '\U{3000}' || c == '\U{FEFF}'
  }

  predicate AllTrimmable(s: string) { forall k :: 0 <= k < |s| ==> IsTrimmable(s[k]) }

  /** `s` with its leading whitespace removed. */
  function DropLeading(s: string): (r: string)
    ensures |r| <= |s| && r == s[|s| - |r|..]
    ensures AllTrimmable(s[..|s| - |r|])
    ensures r != [] ==> !IsTrimmable(r[0])
  {
    if s != [] && IsTrimmable(s[0]) then
      var r := DropLeading(s[1..]);
      var k := |s| - |r|;
      assert s[k..] == s[1..][k - 1..];
      assert forall j :: 1 <= j < k ==> s[..k][j] == s[1..][..k - 1][j - 1];
      r
    else s
  }

  /** `s` with its trailing whitespace removed. */
  function DropTrailing(s: string): (r: string)
    ensures |r| <= |s| && r == s[..|r|]
    ensures AllTrimmable(s[|r|..])
    ensures r != [] ==> !IsTrimmable(r[|r| - 1])
  {
    if s != [] && IsTrimmable(s[|s| - 1]) then DropTrailing(s[..|s| - 1]) else s
  }

  /** How many characters `trim` removes from the front of `s`. */
  function LeadingCount(s: string): (n: nat)
    ensures n <= |s|
  {
    |s| - |DropLeading(s)|
  }

  /** `s.trim()`: the infix of `s` left once whitespace is removed from both ends. */
  function Trim(s: string): (r: string)
    ensures r == [] <==> AllTrimmable(s)
    ensures r != [] ==> !IsTrimmable(r[0]) && !IsTrimmable(r[|r| - 1])
  {
    var l := DropLeading(s);
    var r := DropTrailing(l);
    TrimPieces(s, l, r);
    r
  }

  /** Trim removes only whitespace, and only at the ends: `s` is the leading whitespace,
      then the trimmed string, then the trailing whitespace. */
  lemma TrimIsInfix(s: string)
    ensures var r, n := Trim(s), LeadingCount(s);
            && n + |r| <= |s| && r == s[n..n + |r|]
            && AllTrimmable(s[..n]) && AllTrimmable(s[n + |r|..])
  {
    TrimPieces(s, DropLeading(s), DropTrailing(DropLeading(s)));
  }

  /** How the two halves of Trim fit together; stated on plain slices so that the
      recursive definitions are not unfolded. */
  lemma TrimPieces(s: string, l: string, r: string)
    requires |l| <= |s| && l == s[|s| - |l|..] && |r| <= |l| && r == l[..|r|]
    requires AllTrimmable(s[..|s| - |l|]) && AllTrimmable(l[|r|..])
    requires l != [] ==> !IsTrimmable(l[0])
    requires r != [] ==> !IsTrimmable(r[|r| - 1])
    ensures var i := |s| - |l|;
            && (r == [] <==> AllTrimmable(s))
            && (r != [] ==> !IsTrimmable(r[0]) && !IsTrimmable(r[|r| - 1]))
            && i + |r| <= |s| && r == s[i..i + |r|]
            && AllTrimmable(s[..i]) && AllTrimmable(s[i + |r|..])
  {
    var i := |s| - |l|;
    assert s[i..][..|r|] == s[i..i + |r|];
    assert s[i..][|r|..] == s[i + |r|..];
    if r == [] {
      assert l[|r|..] == l;
      AllTrimmableConcat(s[..i], l);
      assert s[..i] + l == s;
    } else {
      assert r[0] == l[0] == s[i];
    }
  }

  lemma AllTrimmableConcat(a: string, b: string)
    requires AllTrimmable(a) && AllTrimmable(b)
    ensures AllTrimmable(a + b)
  {
    forall k | 0 <= k < |a + b| ensures IsTrimmable((a + b)[k]) {
      if k >= |a| {
        assert (a + b)[k] == b[k - |a|];
      }
    }
  }

  /** A string that starts and ends with a visible character is its own trim. */
  lemma TrimVisible(s: string)
    requires s != [] && !IsTrimmable(s[0]) && !IsTrimmable(s[|s| - 1])
    ensures Trim(s) == s
  {
  }

  // ---------------------------------------------------------------------------------
  // The base name (api/merge-batch.js lines 111-113)
  // ---------------------------------------------------------------------------------

  predicate HasNoSeparator(s: string) { forall k :: 0 <= k < |s| ==> s[k] != '/' && s[k] != '\\' }

  /** `orden_<i+1>.pdf`, the name used when the order has none. */
  function Fallback(i: nat): (r: string)
    ensures EndsWithPdf(r) && HasNoSeparator(r)
    ensures r[0] == 'o' && r[|r| - 1] == 'f'
  {
    "orden_" + NatToString(i + 1) + ".pdf"
  }

  /** The name with ".pdf" appended unless it already ends in it, in any case. */
  function WithPdfExt(name: string): (r: string)
    ensures EndsWithPdf(r)
    ensures EndsWithPdf(name) ==> r == name
    ensures !EndsWithPdf(name) ==> r == name + ".pdf"
  {
    if EndsWithPdf(name) then name else name + ".pdf"
  }

  /** `replace(/[\\/]/g, '_')`: every slash and backslash becomes an underscore. */
  function Sanitize(name: string): (r: string)
    ensures |r| == |name| && HasNoSeparator(r)
    ensures EndsWithPdf(name) ==> EndsWithPdf(r)
    ensures forall k :: 0 <= k < |r| ==> r[k] == (if name[k] == '/' || name[k] == '\\' then '_' else name[k])
  {
    seq(|name|, k requires 0 <= k < |name| => if name[k] == '/' || name[k] == '\\' then '_' else name[k])
  }

  /** The name pair `i` starts from: the trimmed original name, or `orden_<i+1>.pdf` when
      that is missing or blank. */
  function PickedName(original: string, i: nat): (name: string)
    ensures name != [] && !IsTrimmable(name[0]) && !IsTrimmable(name[|name| - 1])
  {
    var picked := if original == "" then Fallback(i) else original;
    var trimmed := Trim(picked);
    if trimmed == "" then Fallback(i) else trimmed
  }

  /** The base download name of pair `i` whose order was uploaded as `original`
      ("" when the upload carries no name). */
  function BaseName(original: string, i: nat): (r: string)
    ensures r != [] && EndsWithPdf(r) && HasNoSeparator(r)
  {
    Sanitize(WithPdfExt(PickedName(original, i)))
  }

  /** A base name starts with a visible character. */
  lemma BaseNameVisibleStart(original: string, i: nat)
    ensures !IsTrimmable(BaseName(original, i)[0])
  {
    VisibleStart(PickedName(original, i));
  }

  /** Adding the extension and replacing separators keeps a visible first character
      visible. */
  lemma VisibleStart(name: string)
    requires name != [] && !IsTrimmable(name[0])
    ensures !IsTrimmable(Sanitize(WithPdfExt(name))[0])
  {
    var w := WithPdfExt(name);
    assert w[0] == name[0] by {
      if !EndsWithPdf(name) {
        assert w == name + ".pdf";
      }
    }
  }

  /** A missing or whitespace-only name falls back to `orden_<i+1>.pdf`. */
  lemma BaseNameFallback(original: string, i: nat)
    requires AllTrimmable(original)
    ensures BaseName(original, i) == Fallback(i)
  {
    var f := Fallback(i);
    TrimVisible(f);
    assert Sanitize(f) == f;
  }

  /** A visible name is trimmed, gains ".pdf" when it lacks it, and has its separators
      replaced. */
  lemma BaseNameOfName(original: string, i: nat)
    requires !AllTrimmable(original)
    ensures BaseName(original, i) == Sanitize(WithPdfExt(Trim(original)))
  {
  }

  /** A clean name already ending in ".pdf" is kept unchanged. */
  lemma BaseNameKeepsCleanName(original: string, i: nat)
    requires original != [] && !IsTrimmable(original[0])
    requires EndsWithPdf(original) && HasNoSeparator(original)
    ensures BaseName(original, i) == original
  {
    assert !IsTrimmable(original[|original| - 1]);
    TrimVisible(original);
    assert Sanitize(original) == original;
  }

  /** A clean name without the extension gains exactly ".pdf". */
  lemma BaseNameAddsExtension(original: string, i: nat)
    requires original != [] && !IsTrimmable(original[0]) && !IsTrimmable(original[|original| - 1])
    requires !EndsWithPdf(original) && HasNoSeparator(original)
    ensures BaseName(original, i) == original + ".pdf"
  {
    TrimVisible(original);
    var w := original + ".pdf";
    assert Sanitize(w) == w;
  }

  /** Building the base name again from its own result changes nothing. */
  lemma BaseNameIdempotent(original: string, i: nat, j: nat)
    ensures BaseName(BaseName(original, i), j) == BaseName(original, i)
  {
    BaseNameVisibleStart(original, i);
    BaseNameKeepsCleanName(BaseName(original, i), j);
  }

  // ---------------------------------------------------------------------------------
  // path.extname and path.basename for a name without '/'
  // ---------------------------------------------------------------------------------

  /** The index of the last '.', if any. */
  function LastDot(s: string): (k: Option<nat>)
    ensures k.None? <==> forall j :: 0 <= j < |s| ==> s[j] != '.'
    ensures k.Some? ==> k.value < |s| && s[k.value] == '.' && forall j :: k.value < j < |s| ==> s[j] != '.'
  {
    if s == [] then None
    else if s[|s| - 1] == '.' then Some(|s| - 1)
    else LastDot(s[..|s| - 1])
  }

  /** `path.extname(name)` (POSIX): from the last dot on, unless that dot is the first
      character, there is none, or the name is "..". */
  function ExtName(name: string): (r: string)
    requires '/' !in name
    ensures r == [] <==> (forall j :: 1 <= j < |name| ==> name[j] != '.') || name == ".."
    ensures r != [] ==> 0 < |r| < |name| && r == name[|name| - |r|..]
    ensures r != [] ==> r[0] == '.' && forall j :: 1 <= j < |r| ==> r[j] != '.'
  {
    var d := LastDot(name);
    if d.None? || d.value == 0 || name == ".." then ""
    else
      assert name[d.value..][0] == '.';
      name[d.value..]
  }

  /** A name split into `path.basename(name, ext)` and `ext`. */
  datatype NameParts = NameParts(stem: string, ext: string)

  function SplitExt(name: string): (p: NameParts)
    requires '/' !in name
    ensures p.stem + p.ext == name
    ensures p.ext == ExtName(name)
  {
    var ext := ExtName(name);
    NameParts(name[..|name| - |ext|], ext)
  }

  /** `${stem}_${suffix}${ext}` */
  function Candidate(p: NameParts, n: nat): string {
    p.stem + "_" + NatToString(n) + p.ext
  }

  /** Distinct suffixes give distinct candidates. */
  lemma CandidateInjective(p: NameParts, a: nat, b: nat)
    requires Candidate(p, a) == Candidate(p, b)
    ensures a == b
  {
    NumberedNameInjective(p.stem + "_", a, b, p.ext);
  }

  /** The candidates with suffixes 1..n. */
  function CandSet(p: NameParts, n: nat): (c: set<string>)
    ensures forall m :: 1 <= m <= n ==> Candidate(p, m) in c
  {
    if n == 0 then {} else CandSet(p, n - 1) + {Candidate(p, n)}
  }

  lemma {:induction false} CandSetSize(p: NameParts, n: nat)
    ensures |CandSet(p, n)| == n
  {
    if n > 0 {
      CandSetSize(p, n - 1);
      if Candidate(p, n) in CandSet(p, n - 1) {
        CandSetMembers(p, n - 1, Candidate(p, n), n);
      }
    }
  }

  lemma {:induction false} CandSetMembers(p: NameParts, n: nat, c: string, m: nat)
    requires m > n && c == Candidate(p, m)
    ensures c !in CandSet(p, n)
  {
    if n > 0 {
      if c == Candidate(p, n) {
        CandidateInjective(p, n, m);
      }
      CandSetMembers(p, n - 1, c, m);
    }
  }

  /** Once the candidates 1..n-1 are all taken, n cannot exceed |used| + 1. */
  lemma TakenBound(p: NameParts, used: set<string>, n: nat)
    requires n >= 1
    requires forall m :: 1 <= m < n ==> Candidate(p, m) in used
    ensures n <= |used| + 1
  {
    CandSetSize(p, n - 1);
    assert CandSet(p, n - 1) <= used by {
      forall c | c in CandSet(p, n - 1) ensures c in used {
        CandSetElem(p, n - 1, c);
      }
    }
    SubsetSize(CandSet(p, n - 1), used);
  }

  lemma {:induction false} CandSetElem(p: NameParts, n: nat, c: string)
    requires c in CandSet(p, n)
    ensures exists m :: 1 <= m <= n && c == Candidate(p, m)
  {
    if c != Candidate(p, n) {
      CandSetElem(p, n - 1, c);
    }
  }

  lemma SubsetSize<T>(a: set<T>, b: set<T>)
    requires a <= b
    ensures |a| <= |b|
  {
    assert b == a + (b - a);
  }

  /** The smallest suffix from `n` on whose candidate is free. */
  function FreeSuffix(p: NameParts, used: set<string>, n: nat): (k: nat)
    requires n >= 1
    requires forall m :: 1 <= m < n ==> Candidate(p, m) in used
    ensures k >= n && Candidate(p, k) !in used
    ensures forall m :: 1 <= m < k ==> Candidate(p, m) in used
    decreases |used| + 1 - n
  {
    TakenBound(p, used, n);
    if Candidate(p, n) in used then FreeSuffix(p, used, n + 1) else n
  }

  /** The name chosen for `base` when the batch has already used `used`. */
  function ResolvedName(base: string, used: set<string>): (name: string)
    requires '/' !in base
    ensures name !in used
    ensures base !in used ==> name == base
  {
    if base !in used then base else Candidate(SplitExt(base), FreeSuffix(SplitExt(base), used, 1))
  }

  /** A taken base name becomes `stem_n+ext` for the smallest n >= 1 whose candidate is
      free. */
  lemma ResolvedNameIsFirstFree(base: string, used: set<string>)
    requires '/' !in base && base in used
    ensures exists n :: n >= 1 && ResolvedName(base, used) == Candidate(SplitExt(base), n)
                        && forall m :: 1 <= m < n ==> Candidate(SplitExt(base), m) in used
  {
    var k := FreeSuffix(SplitExt(base), used, 1);
    assert ResolvedName(base, used) == Candidate(SplitExt(base), k);
  }

  /** The suffix search of lines 116-122: the loop that increments `suffix`. */
  method ResolveName(base: string, used: set<string>) returns (name: string)
    requires '/' !in base
    ensures name == ResolvedName(base, used)
  {
    name := base;
    if base in used {
      var parts := SplitExt(base);
      var suffix := 1;
      while Candidate(parts, suffix) in used
        invariant 1 <= suffix
        invariant forall m :: 1 <= m < suffix ==> Candidate(parts, m) in used
        invariant FreeSuffix(parts, used, suffix) == FreeSuffix(parts, used, 1)
        decreases |used| + 1 - suffix
      {
        TakenBound(parts, used, suffix + 1);
        suffix := suffix + 1;
      }
      name := Candidate(parts, suffix);
    }
  }

  /** The minimal suffix is the only one: a name resolved with any other free suffix that
      has every smaller one taken is the same name. */
  lemma ResolvedNameMinimal(base: string, used: set<string>, n: nat)
    requires '/' !in base && base in used && n >= 1
    requires Candidate(SplitExt(base), n) !in used
    requires forall m :: 1 <= m < n ==> Candidate(SplitExt(base), m) in used
    ensures ResolvedName(base, used) == Candidate(SplitExt(base), n)
  {
  }

  // ---------------------------------------------------------------------------------
  // Examples
  // ---------------------------------------------------------------------------------

  lemma SplitPdfName()
    ensures SplitExt("a.pdf") == NameParts("a", ".pdf")
  {
    assert LastDot("a.pdf") == Some(1);
  }

  lemma SplitDotPdf()
    ensures SplitExt(".pdf") == NameParts(".pdf", "")
  {
    assert ExtName(".pdf") == "";
  }

  lemma CandidatesOfA()
    ensures Candidate(NameParts("a", ".pdf"), 1) == "a_1.pdf"
    ensures Candidate(NameParts("a", ".pdf"), 2) == "a_2.pdf"
  {
    assert NatToString(1) == "1" && NatToString(2) == "2";
  }

  /** `a.pdf` three times in one batch: `a.pdf`, `a_1.pdf`, `a_2.pdf`. */
  lemma CollisionExample()
    ensures ResolvedName("a.pdf", {}) == "a.pdf"
    ensures ResolvedName("a.pdf", {"a.pdf"}) == "a_1.pdf"
    ensures ResolvedName("a.pdf", {"a.pdf", "a_1.pdf"}) == "a_2.pdf"
  {
    SecondA();
    ThirdA();
  }

  lemma SecondA()
    ensures ResolvedName("a.pdf", {"a.pdf"}) == "a_1.pdf"
  {
    SplitPdfName();
    CandidatesOfA();
    ResolvedNameMinimal("a.pdf", {"a.pdf"}, 1);
  }

  lemma ThirdA()
    ensures ResolvedName("a.pdf", {"a.pdf", "a_1.pdf"}) == "a_2.pdf"
  {
    SplitPdfName();
    CandidatesOfA();
    ResolvedNameMinimal("a.pdf", {"a.pdf", "a_1.pdf"}, 2);
  }

  /** `path.extname(".pdf")` is empty, so a second `.pdf` becomes `.pdf_1`. */
  lemma DotPdfCollision()
    ensures ResolvedName(".pdf", {".pdf"}) == ".pdf_1"
  {
    SplitDotPdf();
    assert Candidate(NameParts(".pdf", ""), 1) == ".pdf_1";
    ResolvedNameMinimal(".pdf", {".pdf"}, 1);
  }
}
