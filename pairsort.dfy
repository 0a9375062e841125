/** sortBySequence: files ordered by the number in their names, then by name. */
module PairSort {
  import opened Wrappers
  import opened SequenceKey

  /** A file as the upload layer hands it over: where it was stored and the name the client
      gave it. The empty string stands for a missing value. */
  datatype UploadedFile = UploadedFile(path: string, originalName: string)

  /** `leq(a, b)` models `a.localeCompare(b, 'es', { numeric: true }) <= 0`: collation is
      not modelled, only that it is a consistent comparator, i.e. a total preorder. */
  ghost predicate TotalPreorder(leq: (string, string) -> bool) {
    && (forall a, b :: leq(a, b) || leq(b, a))
    && (forall a, b, c :: leq(a, b) && leq(b, c) ==> leq(a, c))
  }

  /** The comparator of sortBySequence returns a value <= 0 for (a, b). */
  predicate Before(a: UploadedFile, b: UploadedFile, leq: (string, string) -> bool) {
    var ka := ExtractSeq(a.originalName);
    var kb := ExtractSeq(b.originalName);
    if ka.Some? && kb.Some? && ka.value != kb.value then ka.value < kb.value
    else if ka.Some? && kb.None? then true
    else if ka.None? && kb.Some? then false
    else leq(a.originalName, b.originalName)
  }

  /** The comparator is total. */
  lemma BeforeTotal(a: UploadedFile, b: UploadedFile, leq: (string, string) -> bool)
    requires TotalPreorder(leq)
    ensures Before(a, b, leq) || Before(b, a, leq)
  {
    assert leq(a.originalName, b.originalName) || leq(b.originalName, a.originalName);
  }

  /** The comparator is transitive. */
  lemma BeforeTransitive(a: UploadedFile, b: UploadedFile, c: UploadedFile, leq: (string, string) -> bool)
    requires TotalPreorder(leq)
    requires Before(a, b, leq) && Before(b, c, leq)
    ensures Before(a, c, leq)
  {
    var na, nb, nc := a.originalName, b.originalName, c.originalName;
    assert leq(na, nb) && leq(nb, nc) ==> leq(na, nc);
  }

  /** Sorted by the comparator: every element may precede every later one. */
  ghost predicate Sorted(s: seq<UploadedFile>, leq: (string, string) -> bool) {
    forall i, j :: 0 <= i < j < |s| ==> Before(s[i], s[j], leq)
  }

  /** Puts `x` in front of the first element it may precede; `x` goes before every element
      that compares equal to it, which is what makes the sort stable. */
  function Insert(x: UploadedFile, t: seq<UploadedFile>, leq: (string, string) -> bool): (r: seq<UploadedFile>)
    ensures multiset(r) == multiset(t) + multiset{x}
  {
    if t == [] then [x]
    else if Before(x, t[0], leq) then [x] + t
    else
      assert t == [t[0]] + t[1..];
      [t[0]] + Insert(x, t[1..], leq)
  }

  /** sortBySequence(list): a sorted copy of the list (Array.prototype.sort is stable). */
  function SortBySequence(files: seq<UploadedFile>, leq: (string, string) -> bool): (r: seq<UploadedFile>)
    ensures multiset(r) == multiset(files) && |r| == |files|
  {
    if files == [] then []
    else
      assert files == [files[0]] + files[1..];
      Insert(files[0], SortBySequence(files[1..], leq), leq)
  }

  lemma {:induction false} InsertSorted(x: UploadedFile, t: seq<UploadedFile>, leq: (string, string) -> bool)
    requires TotalPreorder(leq) && Sorted(t, leq)
    ensures Sorted(Insert(x, t, leq), leq)
  {
    if t == [] {
    } else if Before(x, t[0], leq) {
      forall j | 1 <= j < |t| ensures Before(x, t[j], leq) {
        BeforeTransitive(x, t[0], t[j], leq);
      }
    } else {
      BeforeTotal(x, t[0], leq);
      InsertSorted(x, t[1..], leq);
      var r := Insert(x, t[1..], leq);
      forall j | 0 <= j < |r| ensures Before(t[0], r[j], leq) {
        assert r[j] in multiset(r);
        if r[j] != x {
          assert r[j] in t[1..];
        }
      }
    }
  }

  /** The result is sorted by the comparator. */
  lemma {:induction false} SortIsSorted(files: seq<UploadedFile>, leq: (string, string) -> bool)
    requires TotalPreorder(leq)
    ensures Sorted(SortBySequence(files, leq), leq)
  {
    if files != [] {
      SortIsSorted(files[1..], leq);
      InsertSorted(files[0], SortBySequence(files[1..], leq), leq);
    }
  }

  /** What sortedness means for the pairing: keyed files in ascending key order, every keyed
      file before every keyless one, and the name comparison between files whose keys tie
      or are both missing. */
  lemma SortedOrder(files: seq<UploadedFile>, leq: (string, string) -> bool, i: nat, j: nat)
    requires TotalPreorder(leq)
    requires i < |SortBySequence(files, leq)| && j < |SortBySequence(files, leq)|
    ensures var r := SortBySequence(files, leq);
            var ki, kj := ExtractSeq(r[i].originalName), ExtractSeq(r[j].originalName);
            && (ki.Some? && kj.Some? && ki.value < kj.value ==> i < j)
            && (ki.Some? && kj.None? ==> i < j)
            && (i < j && ki == kj ==> leq(r[i].originalName, r[j].originalName))
            && (i < j && ki.None? && kj.None? ==> leq(r[i].originalName, r[j].originalName))
  {
    SortIsSorted(files, leq);
    var r := SortBySequence(files, leq);
    if i < j {
      assert Before(r[i], r[j], leq);
    } else if j < i {
      assert Before(r[j], r[i], leq);
    }
  }

  /** The files that compare equal to `x`, in their order in `s`. */
  function TiedWith(x: UploadedFile, s: seq<UploadedFile>, leq: (string, string) -> bool): seq<UploadedFile> {
    if s == [] then []
    else (if Tied(x, s[0], leq) then [s[0]] else []) + TiedWith(x, s[1..], leq)
  }

  predicate Tied(x: UploadedFile, y: UploadedFile, leq: (string, string) -> bool) {
    Before(x, y, leq) && Before(y, x, leq)
  }

  lemma TiedWithCons(x: UploadedFile, h: UploadedFile, s: seq<UploadedFile>, leq: (string, string) -> bool)
    ensures TiedWith(x, [h] + s, leq) == (if Tied(x, h, leq) then [h] else []) + TiedWith(x, s, leq)
  {
    assert ([h] + s)[0] == h && ([h] + s)[1..] == s;
  }

  /** x cannot tie with both y and an element y does not precede. */
  lemma TiedExclusive(x: UploadedFile, y: UploadedFile, h: UploadedFile, leq: (string, string) -> bool)
    requires TotalPreorder(leq) && !Before(y, h, leq) && Tied(x, y, leq)
    ensures !Tied(x, h, leq)
  {
    if Before(x, h, leq) {
      BeforeTransitive(y, x, h, leq);
    }
  }

  lemma {:induction false} InsertTied(x: UploadedFile, y: UploadedFile, t: seq<UploadedFile>, leq: (string, string) -> bool)
    requires TotalPreorder(leq)
    ensures TiedWith(x, Insert(y, t, leq), leq) == (if Tied(x, y, leq) then [y] else []) + TiedWith(x, t, leq)
  {
    if t == [] {
      TiedWithCons(x, y, [], leq);
    } else if Before(y, t[0], leq) {
      TiedWithCons(x, y, t, leq);
    } else {
      InsertTied(x, y, t[1..], leq);
      InsertTiedStep(x, y, t, leq);
    }
  }

  lemma InsertTiedStep(x: UploadedFile, y: UploadedFile, t: seq<UploadedFile>, leq: (string, string) -> bool)
    requires TotalPreorder(leq) && t != [] && !Before(y, t[0], leq)
    requires TiedWith(x, Insert(y, t[1..], leq), leq) == (if Tied(x, y, leq) then [y] else []) + TiedWith(x, t[1..], leq)
    ensures TiedWith(x, Insert(y, t, leq), leq) == (if Tied(x, y, leq) then [y] else []) + TiedWith(x, t, leq)
  {
    var h := t[0];
    var rest := Insert(y, t[1..], leq);
    assert Insert(y, t, leq) == [h] + rest;
    TiedWithCons(x, h, rest, leq);
    TiedWithCons(x, h, t[1..], leq);
    assert t == [h] + t[1..];
    var tail := TiedWith(x, t[1..], leq);
    var th: seq<UploadedFile> := if Tied(x, h, leq) then [h] else [];
    var ty: seq<UploadedFile> := if Tied(x, y, leq) then [y] else [];
    assert TiedWith(x, [h] + rest, leq) == th + (ty + tail);
    assert TiedWith(x, t, leq) == th + tail;
    if Tied(x, y, leq) {
      TiedExclusive(x, y, h, leq);
      assert th + (ty + tail) == ty + tail;
    } else {
      assert ty + (th + tail) == th + tail;
    }
  }

  /** Stability: files that compare equal keep their relative upload order. */
  lemma {:induction false} SortIsStable(x: UploadedFile, files: seq<UploadedFile>, leq: (string, string) -> bool)
    requires TotalPreorder(leq)
    ensures TiedWith(x, SortBySequence(files, leq), leq) == TiedWith(x, files, leq)
  {
    if files != [] {
      SortIsStable(x, files[1..], leq);
      InsertTied(x, files[0], SortBySequence(files[1..], leq), leq);
    }
  }

  /** Sorting an already sorted list returns it unchanged. */
  lemma {:induction false} SortKeepsSorted(files: seq<UploadedFile>, leq: (string, string) -> bool)
    requires Sorted(files, leq)
    ensures SortBySequence(files, leq) == files
  {
    if files != [] {
      assert Sorted(files[1..], leq);
      SortKeepsSorted(files[1..], leq);
      assert [files[0]] + files[1..] == files;
    }
  }

  /** Sorting twice is sorting once. */
  lemma SortIdempotent(files: seq<UploadedFile>, leq: (string, string) -> bool)
    requires TotalPreorder(leq)
    ensures SortBySequence(SortBySequence(files, leq), leq) == SortBySequence(files, leq)
  {
    SortIsSorted(files, leq);
    SortKeepsSorted(SortBySequence(files, leq), leq);
  }

  /** One step of the sort: the head is inserted into the sorted rest. */
  lemma SortStep(x: UploadedFile, t: seq<UploadedFile>, leq: (string, string) -> bool)
    ensures SortBySequence([x] + t, leq) == Insert(x, SortBySequence(t, leq), leq)
  {
    assert ([x] + t)[1..] == t;
  }

  /** An element that may not precede the head is inserted behind it. */
  lemma InsertBehind(x: UploadedFile, y: UploadedFile, t: seq<UploadedFile>, leq: (string, string) -> bool)
    requires !Before(x, y, leq)
    ensures Insert(x, [y] + t, leq) == [y] + Insert(x, t, leq)
  {
    assert ([y] + t)[1..] == t;
  }

  /** An element that may precede the head is inserted in front of it. */
  lemma InsertInFront(x: UploadedFile, t: seq<UploadedFile>, leq: (string, string) -> bool)
    requires t != [] && Before(x, t[0], leq)
    ensures Insert(x, t, leq) == [x] + t
  {
  }

  lemma SortTwo(x: UploadedFile, y: UploadedFile, leq: (string, string) -> bool)
    requires !Before(x, y, leq)
    ensures SortBySequence([x, y], leq) == [y, x]
  {
    SortStep(y, [], leq);
    assert SortBySequence([y], leq) == [y];
    InsertBehind(x, y, [], leq);
    assert [x, y] == [x] + [y];
    SortStep(x, [y], leq);
  }

  /** Three files keyed 2, 10 and 1, uploaded in that order, sort as 1, 2, 10 whatever
      the collation: the keys decide. */
  lemma SortByKeys(leq: (string, string) -> bool, f1: UploadedFile, f2: UploadedFile, f10: UploadedFile)
    requires ExtractSeq(f1.originalName) == Some(1.0)
    requires ExtractSeq(f2.originalName) == Some(2.0)
    requires ExtractSeq(f10.originalName) == Some(10.0)
    ensures SortBySequence([f2, f10, f1], leq) == [f1, f2, f10]
  {
    assert !Before(f10, f1, leq) && !Before(f2, f1, leq) && Before(f2, f10, leq);
    SortThree(f2, f10, f1, leq);
  }

  /** The last element is the least, and the first may precede the second. */
  lemma SortThree(a: UploadedFile, b: UploadedFile, c: UploadedFile, leq: (string, string) -> bool)
    requires !Before(b, c, leq) && !Before(a, c, leq) && Before(a, b, leq)
    ensures SortBySequence([a, b, c], leq) == [c, a, b]
  {
    SortTwo(b, c, leq);
    assert [a, b, c] == [a] + [b, c];
    SortStep(a, [b, c], leq);
    assert [c, b] == [c] + [b];
    InsertBehind(a, c, [b], leq);
    InsertInFront(a, [b], leq);
    assert [c] + ([a] + [b]) == [c, a, b];
  }

  /** The example ordering: "orden2.pdf", "orden10.pdf", "orden1.pdf" sort as
      "orden1.pdf", "orden2.pdf", "orden10.pdf". */
  lemma SortExample(leq: (string, string) -> bool, f1: UploadedFile, f2: UploadedFile, f10: UploadedFile)
    requires f1.originalName == "orden1.pdf" && f2.originalName == "orden2.pdf" && f10.originalName == "orden10.pdf"
    ensures SortBySequence([f2, f10, f1], leq) == [f1, f2, f10]
  {
    KeyOfOrden1();
    KeyOfOrden2();
    KeyOfOrden10();
    SortByKeys(leq, f1, f2, f10);
  }
}
