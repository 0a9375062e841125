/** The batch tab of the browser page (public/app.js lines 196-228): dropped files are
    filtered to PDFs and sorted into orders and invoices by keyword, and the form refuses
    to submit lists the server would reject. Also the download names of the single-file
    tools (lines 57 and 98). */
module BatchDrop {
  import opened Wrappers
  import opened Text
  import opened BatchMerge

  /** A file of the drop: its name and its MIME type (`f.type`). */
  datatype DroppedFile = DroppedFile(name: string, mimeType: string)

  // ---------------------------------------------------------------------------------
  // The PDF filter (line 199)
  // ---------------------------------------------------------------------------------

  /** A file is kept when the browser reports it as a PDF or its name ends in ".pdf". */
  predicate IsPdfFile(f: DroppedFile) {
    f.mimeType == "application/pdf" || EndsWithPdf(f.name)
  }

  /** `[...files].filter(IsPdfFile)` */
  function PdfsOnly(files: seq<DroppedFile>): (kept: seq<DroppedFile>)
    ensures |kept| <= |files|
    ensures forall f :: f in kept <==> f in files && IsPdfFile(f)
  {
    if files == [] then []
    else (if IsPdfFile(files[0]) then [files[0]] else []) + PdfsOnly(files[1..])
  }

  /** The filter keeps the drop order: filtering a list split into two parts is filtering
      each part, the first part's files first. */
  lemma {:induction false} PdfsOnlyAppend(a: seq<DroppedFile>, b: seq<DroppedFile>)
    ensures PdfsOnly(a + b) == PdfsOnly(a) + PdfsOnly(b)
  {
    if a == [] {
      assert a + b == b;
    } else {
      assert (a + b)[0] == a[0] && (a + b)[1..] == a[1..] + b;
      PdfsOnlyAppend(a[1..], b);
    }
  }

  /** A drop made only of PDFs is kept whole, in its order. */
  lemma {:induction false} PdfsOnlyKeepsPdfs(files: seq<DroppedFile>)
    requires forall k :: 0 <= k < |files| ==> IsPdfFile(files[k])
    ensures PdfsOnly(files) == files
  {
    if files != [] {
      PdfsOnlyKeepsPdfs(files[1..]);
    }
  }

  // ---------------------------------------------------------------------------------
  // The classifier (lines 202-210)
  // ---------------------------------------------------------------------------------

  /** The two lists a file can go to: `oc` (orders) and `fac` (invoices). */
  datatype Side = Orders | Invoices

  /** `/fact/.test(name)` on the lower-cased name. */
  predicate NamesInvoice(name: string) { Contains(Lower(name), "fact") }

  /** `/oc|orden/.test(name)` on the lower-cased name. */
  predicate NamesOrder(name: string) { Contains(Lower(name), "oc") || Contains(Lower(name), "orden") }

  /** Where one file goes when `oc` and `fac` currently hold `nOc` and `nFac` files: by
      keyword, "fact" first, and otherwise to the list that is not longer, orders on a tie. */
  function Route(f: DroppedFile, nOc: nat, nFac: nat): (side: Side)
    ensures NamesInvoice(f.name) ==> side == Invoices
    ensures !NamesInvoice(f.name) && NamesOrder(f.name) ==> side == Orders
    ensures !NamesInvoice(f.name) && !NamesOrder(f.name) ==> (side == Orders <==> nOc <= nFac)
  {
    if NamesInvoice(f.name) then Invoices
    else if NamesOrder(f.name) then Orders
    else if nOc <= nFac then Orders
    else Invoices
  }

  /** The files of `files` whose side is `side`, in their order. */
  function Pick(files: seq<DroppedFile>, sides: seq<Side>, side: Side): (picked: seq<DroppedFile>)
    requires |files| == |sides|
    ensures |picked| <= |files|
  {
    if files == [] then []
    else
      var n := |files| - 1;
      Pick(files[..n], sides[..n], side) + (if sides[n] == side then [files[n]] else [])
  }

  /** Picking from a list split into two parts picks from each part, the first part's files first. */
  lemma {:induction false} PickAppend(a: seq<DroppedFile>, sa: seq<Side>, b: seq<DroppedFile>, sb: seq<Side>, side: Side)
    requires |a| == |sa| && |b| == |sb|
    ensures Pick(a + b, sa + sb, side) == Pick(a, sa, side) + Pick(b, sb, side)
  {
    if b == [] {
      assert a + b == a && sa + sb == sa;
    } else {
      var n := |b| - 1;
      assert (a + b)[..|a| + n] == a + b[..n];
      assert (sa + sb)[..|a| + n] == sa + sb[..n];
      PickAppend(a, sa, b[..n], sb[..n], side);
    }
  }

  /** The positions of the files sent to `side`, in increasing order. */
  function PickedAt(sides: seq<Side>, side: Side): (idx: seq<nat>)
    ensures forall j :: 0 <= j < |idx| ==> idx[j] < |sides| && sides[idx[j]] == side
    ensures forall j, k :: 0 <= j < k < |idx| ==> idx[j] < idx[k]
    ensures forall i :: 0 <= i < |sides| && sides[i] == side ==> i in idx
  {
    if sides == [] then []
    else
      var n := |sides| - 1;
      PickedAt(sides[..n], side) + (if sides[n] == side then [n] else [])
  }

  /** A list is the drop's files at the positions sent to it, in drop order. */
  lemma {:induction false} PickInDropOrder(files: seq<DroppedFile>, sides: seq<Side>, side: Side)
    requires |files| == |sides|
    ensures |Pick(files, sides, side)| == |PickedAt(sides, side)|
    ensures forall j :: 0 <= j < |PickedAt(sides, side)| ==>
              Pick(files, sides, side)[j] == files[PickedAt(sides, side)[j]]
  {
    if files != [] {
      var n := |files| - 1;
      var picked, at := Pick(files[..n], sides[..n], side), PickedAt(sides[..n], side);
      PickInDropOrder(files[..n], sides[..n], side);
      assert Pick(files, sides, side) == picked + (if sides[n] == side then [files[n]] else []);
      assert PickedAt(sides, side) == at + (if sides[n] == side then [n] else []);
      forall j | 0 <= j < |at| ensures picked[j] == files[at[j]] {
        assert files[..n][at[j]] == files[at[j]];
      }
    }
  }

  /** The side each file is sent to, the lengths of the lists at that moment deciding the
      files that name no side. */
  function Sides(files: seq<DroppedFile>): (sides: seq<Side>)
    ensures |sides| == |files|
  {
    if files == [] then []
    else
      var n := |files| - 1;
      var before := Sides(files[..n]);
      before + [Route(files[n], |Pick(files[..n], before, Orders)|, |Pick(files[..n], before, Invoices)|)]
  }

  /** The lists the loop builds: each is the drop filtered to the files sent to it. */
  function OrderList(files: seq<DroppedFile>): seq<DroppedFile> {
    Pick(files, Sides(files), Orders)
  }

  function InvoiceList(files: seq<DroppedFile>): seq<DroppedFile> {
    Pick(files, Sides(files), Invoices)
  }

  /** `files.forEach(...)` pushing into `oc` and `fac`. */
  method Classify(files: seq<DroppedFile>) returns (oc: seq<DroppedFile>, fac: seq<DroppedFile>)
    ensures oc == OrderList(files) && fac == InvoiceList(files)
  {
    oc, fac := [], [];
    for i := 0 to |files|
      invariant oc == OrderList(files[..i]) && fac == InvoiceList(files[..i])
    {
      var f := files[i];
      assert files[..i + 1][..i] == files[..i];
      var name := Lower(f.name);
      if Contains(name, "fact") {
        fac := fac + [f];
      } else if Contains(name, "oc") || Contains(name, "orden") {
        oc := oc + [f];
      } else if |oc| <= |fac| {
        oc := oc + [f];
      } else {
        fac := fac + [f];
      }
    }
    assert files[..|files|] == files;
  }

  /** Every kept file lands in exactly one of the two lists. */
  lemma {:induction false} PickPartition(files: seq<DroppedFile>, sides: seq<Side>)
    requires |files| == |sides|
    ensures multiset(Pick(files, sides, Orders)) + multiset(Pick(files, sides, Invoices)) == multiset(files)
  {
    if files != [] {
      var n := |files| - 1;
      PickPartition(files[..n], sides[..n]);
      MultisetLast(files);
      AddOne(Pick(files[..n], sides[..n], Orders), Pick(files[..n], sides[..n], Invoices), multiset(files[..n]), files[n],
        if sides[n] == Orders then [files[n]] else [], if sides[n] == Invoices then [files[n]] else []);
    }
  }

  lemma MultisetLast(s: seq<DroppedFile>)
    requires s != []
    ensures multiset(s) == multiset(s[..|s| - 1]) + multiset{s[|s| - 1]}
  {
    assert s == s[..|s| - 1] + [s[|s| - 1]];
  }

  /** Adding one file to one of two lists that split a multiset splits it with the file. */
  lemma AddOne(o: seq<DroppedFile>, v: seq<DroppedFile>, before: multiset<DroppedFile>, x: DroppedFile, a: seq<DroppedFile>, b: seq<DroppedFile>)
    requires multiset(o) + multiset(v) == before
    requires (a == [x] && b == []) || (a == [] && b == [x])
    ensures multiset(o + a) + multiset(v + b) == before + multiset{x}
  {
  }

  lemma ClassifyPartition(files: seq<DroppedFile>)
    ensures multiset(OrderList(files)) + multiset(InvoiceList(files)) == multiset(files)
    ensures |OrderList(files)| + |InvoiceList(files)| == |files|
  {
    PickPartition(files, Sides(files));
    assert |multiset(files)| == |files|;
  }

  /** A file's side depends only on the files dropped before it. */
  lemma {:induction false} SidesPrefix(files: seq<DroppedFile>, m: nat)
    requires m <= |files|
    ensures Sides(files[..m]) == Sides(files)[..m]
    decreases |files|
  {
    if m < |files| {
      var n := |files| - 1;
      assert files[..n][..m] == files[..m];
      SidesPrefix(files[..n], m);
    } else {
      assert files[..m] == files;
    }
  }

  /** The side of file k is the route it takes once the files before it are classified. */
  lemma SideOf(files: seq<DroppedFile>, k: nat)
    requires k < |files|
    ensures Sides(files)[k] == Route(files[k], |OrderList(files[..k])|, |InvoiceList(files[..k])|)
  {
    SidesPrefix(files, k + 1);
    assert files[..k + 1][..k] == files[..k];
  }

  /** Keyword routing: "fact" sends a file to the invoices even when it also names an
      order; otherwise "oc" or "orden" sends it to the orders. */
  lemma KeywordRouting(files: seq<DroppedFile>, k: nat)
    requires k < |files|
    ensures NamesInvoice(files[k].name) ==> Sides(files)[k] == Invoices
    ensures !NamesInvoice(files[k].name) && NamesOrder(files[k].name) ==> Sides(files)[k] == Orders
  {
    SideOf(files, k);
  }

  predicate NoKeyword(files: seq<DroppedFile>) {
    forall k :: 0 <= k < |files| ==> !NamesInvoice(files[k].name) && !NamesOrder(files[k].name)
  }

  /** Orders at the even positions, invoices at the odd ones. */
  predicate Alternating(sides: seq<Side>) {
    forall k :: 0 <= k < |sides| ==> sides[k] == (if k % 2 == 0 then Orders else Invoices)
  }

  lemma AlternatingAppend(sides: seq<Side>, r: Side)
    requires Alternating(sides) && r == (if |sides| % 2 == 0 then Orders else Invoices)
    ensures Alternating(sides + [r])
  {
    forall k | 0 <= k < |sides| + 1 ensures (sides + [r])[k] == (if k % 2 == 0 then Orders else Invoices) {
      if k < |sides| {
        assert (sides + [r])[k] == sides[k];
      }
    }
  }

  /** Files naming no side alternate, orders first, so the two lists never differ by more
      than one file. */
  lemma {:induction false} UnmatchedAlternate(files: seq<DroppedFile>)
    requires NoKeyword(files)
    ensures |OrderList(files)| == (|files| + 1) / 2 && |InvoiceList(files)| == |files| / 2
    ensures Alternating(Sides(files))
  {
    if files != [] {
      var n := |files| - 1;
      var p := files[..n];
      assert NoKeyword(p) by {
        forall k | 0 <= k < n ensures !NamesInvoice(p[k].name) && !NamesOrder(p[k].name) {
          assert p[k] == files[k];
        }
      }
      UnmatchedAlternate(p);
      var r := LastStep(files);
      Halves(n);
      assert r == (if n % 2 == 0 then Orders else Invoices);
      AlternatingAppend(Sides(p), r);
    }
  }

  lemma Halves(n: nat)
    ensures (n + 1) / 2 <= n / 2 <==> n % 2 == 0
    ensures n % 2 == 0 ==> (n + 2) / 2 == (n + 1) / 2 + 1 && (n + 1) / 2 == n / 2
    ensures n % 2 == 1 ==> (n + 2) / 2 == (n + 1) / 2 && (n + 1) / 2 == n / 2 + 1
  {
  }

  /** The last file of a drop: its side, and the lists grown by it. */
  lemma LastStep(files: seq<DroppedFile>) returns (r: Side)
    requires files != []
    ensures var n := |files| - 1;
      && r == Route(files[n], |OrderList(files[..n])|, |InvoiceList(files[..n])|)
      && Sides(files) == Sides(files[..n]) + [r]
      && OrderList(files) == OrderList(files[..n]) + (if r == Orders then [files[n]] else [])
      && InvoiceList(files) == InvoiceList(files[..n]) + (if r == Invoices then [files[n]] else [])
  {
    var n := |files| - 1;
    var before := Sides(files[..n]);
    r := Route(files[n], |OrderList(files[..n])|, |InvoiceList(files[..n])|);
    assert Sides(files) == before + [r];
    assert (before + [r])[..n] == before;
  }

  lemma UnmatchedBalanced(files: seq<DroppedFile>)
    requires NoKeyword(files)
    ensures |InvoiceList(files)| <= |OrderList(files)| <= |InvoiceList(files)| + 1
  {
    UnmatchedAlternate(files);
  }

  /** A word with a letter the text lacks does not occur in it. */
  lemma MissingLetter(s: string, w: string, k: nat)
    requires k < |w| && w[k] !in s
    ensures !Contains(s, w)
  {
    forall i | 0 <= i <= |s| ensures !OccursAt(s, w, i) {
      if i + |w| <= |s| {
        assert s[i..i + |w|][k] == s[i + k] && s[i + k] in s;
      }
    }
  }

  /** A word found in `s` is found, lower-cased, in `Lower(s)`. */
  lemma LowerKeepsWord(s: string, w: string, i: nat)
    requires OccursAt(s, w, i)
    ensures OccursAt(Lower(s), Lower(w), i)
  {
    forall j | 0 <= j < |w| ensures Lower(s)[i + j] == Lower(w)[j] {
      assert s[i..i + |w|][j] == s[i + j];
    }
  }

  /** "doc" contains "oc": a name such as "doc.pdf" counts as an order. */
  lemma DocCountsAsOrder()
    ensures NamesOrder("doc.pdf") && !NamesInvoice("doc.pdf")
  {
    var s := "doc.pdf";
    assert OccursAt(s, "oc", 1);
    LowerKeepsWord(s, "oc", 1);
    assert Lower("oc") == "oc";
    assert Lower(s)[..] == Lower(s);
    assert 't' !in Lower(s) by {
      forall j | 0 <= j < |s| ensures Lower(s)[j] != 't' {
        assert s[j] != 't' && s[j] != 'T';
      }
    }
    assert "fact"[3] == 't';
    MissingLetter(Lower(s), "fact", 3);
  }

  /** "Factura_orden.pdf" names both sides; "fact" decides. */
  lemma FactWinsOverOrden()
    ensures NamesInvoice("Factura_orden.pdf") && NamesOrder("Factura_orden.pdf")
  {
    var s := "Factura_orden.pdf";
    assert OccursAt(s, "Fact", 0);
    LowerKeepsWord(s, "Fact", 0);
    assert Lower("Fact") == "fact";
    assert OccursAt(s, "orden", 8);
    LowerKeepsWord(s, "orden", 8);
    assert Lower("orden") == "orden";
  }

  // ---------------------------------------------------------------------------------
  // The form (lines 196-212 and 215-228)
  // ---------------------------------------------------------------------------------

  /** The submission check: the message shown instead of sending, or None to send. */
  function SubmitError(nOrders: nat, nInvoices: nat): (msg: Option<string>)
    ensures msg.None? <==> nOrders > 0 && nInvoices > 0 && nOrders == nInvoices
  {
    if nOrders == 0 || nInvoices == 0 then Some("Selecciona órdenes y facturas en PDF.")
    else if nOrders != nInvoices then Some("Deben tener la misma cantidad. " + CountSummary(nOrders, nInvoices))
    else None
  }

  /** The page and the server accept the same list sizes, and on a size mismatch the page
      shows the same counts the server puts in its detail. */
  lemma SubmitCheckAgreesWithServer(nOrders: nat, nInvoices: nat)
    ensures SubmitError(nOrders, nInvoices).None? <==> CountError(nOrders, nInvoices).None?
    ensures nOrders > 0 && nInvoices > 0 && nOrders != nInvoices ==>
              SubmitError(nOrders, nInvoices) ==
                Some("Deben tener la misma cantidad. " + CountError(nOrders, nInvoices).value.detail.value)
  {
  }

  /** The two file inputs of the batch tab. */
  class BatchForm {
    var orders: seq<DroppedFile>
    var invoices: seq<DroppedFile>

    constructor ()
      ensures orders == [] && invoices == []
    {
      orders, invoices := [], [];
    }

    /** The drop handler: PDFs only, classified, and each input replaced only by a
        non-empty list. */
    method Drop(dropped: seq<DroppedFile>)
      modifies this
      ensures var files := PdfsOnly(dropped);
              && orders == (if OrderList(files) != [] then OrderList(files) else old(orders))
              && invoices == (if InvoiceList(files) != [] then InvoiceList(files) else old(invoices))
    ensures var files := PdfsOnly(dropped);
            OrderList(files) != [] && InvoiceList(files) != [] ==>
              multiset(orders) + multiset(invoices) == multiset(files)
    {
      var files := PdfsOnly(dropped);
      ClassifyPartition(files);
      if |files| == 0 {
        return;
      }
      var oc, fac := Classify(files);
      if |oc| > 0 {
        orders := oc;
      }
      if |fac| > 0 {
        invoices := fac;
      }
    }

    /** The click handler's checks before anything is sent. */
    method CheckBeforeSubmit() returns (msg: Option<string>)
      ensures msg == SubmitError(|orders|, |invoices|)
      ensures msg.None? ==> orders != [] && |orders| == |invoices|
    {
      msg := SubmitError(|orders|, |invoices|);
    }
  }

  /** The two classified lists of a drop split its kept PDFs, and every order is a dropped PDF. */
  lemma DropSplitsKeptFiles(dropped: seq<DroppedFile>)
    ensures var files := PdfsOnly(dropped);
            multiset(OrderList(files)) + multiset(InvoiceList(files)) == multiset(files)
    ensures forall f :: f in OrderList(PdfsOnly(dropped)) ==> f in dropped && IsPdfFile(f)
  {
    var files := PdfsOnly(dropped);
    ClassifyPartition(files);
    forall f | f in OrderList(files) ensures f in dropped && IsPdfFile(f) {
      assert f in multiset(OrderList(files));
      assert f in multiset(files);
    }
  }

  // ---------------------------------------------------------------------------------
  // Download names (lines 57 and 98)
  // ---------------------------------------------------------------------------------

  /** `name.replace(/\.pdf$/i, '')`: one trailing ".pdf", in any case, is removed. */
  function StripPdf(name: string): (r: string)
    ensures EndsWithPdf(name) ==> |r| == |name| - 4 && name == r + name[|r|..]
    ensures !EndsWithPdf(name) ==> r == name
  {
    if EndsWithPdf(name) then name[..|name| - 4] else name
  }

  /** The compressed copy is saved as `<stem>-compressed.pdf`. */
  function CompressedName(name: string): string {
    StripPdf(name) + "-compressed.pdf"
  }

  /** The Word conversion is saved as `<stem>.docx`. */
  function WordName(name: string): string {
    StripPdf(name) + ".docx"
  }

  /** Stripping undoes appending ".pdf", whatever came before it. */
  lemma StripPdfOfAppended(stem: string)
    ensures StripPdf(stem + ".pdf") == stem
  {
    EndsWithPdfSuffix(stem);
    assert (stem + ".pdf")[..|stem|] == stem;
  }

  /** Only one extension is removed: "a.pdf.pdf" becomes "a.pdf". */
  lemma StripPdfOnce()
    ensures StripPdf("a.pdf.pdf") == "a.pdf"
  {
    StripPdfOfAppended("a.pdf");
    assert "a.pdf" + ".pdf" == "a.pdf.pdf";
  }

  /** A `<stem>.pdf` name, in either case, is compressed to `<stem>-compressed.pdf`. */
  lemma CompressedNameOfPdf(stem: string)
    ensures CompressedName(stem + ".pdf") == stem + "-compressed.pdf"
    ensures CompressedName(stem + ".PDF") == stem + "-compressed.pdf"
  {
    StripPdfOfAppended(stem);
    assert EndsWithPdf(stem + ".PDF");
    assert (stem + ".PDF")[..|stem|] == stem;
  }

  /** A `<stem>.pdf` name, in either case, is converted to `<stem>.docx`. */
  lemma WordNameOfPdf(stem: string)
    ensures WordName(stem + ".pdf") == stem + ".docx"
    ensures WordName(stem + ".PDF") == stem + ".docx"
  {
    StripPdfOfAppended(stem);
    assert EndsWithPdf(stem + ".PDF");
    assert (stem + ".PDF")[..|stem|] == stem;
  }

  /** The compressed name is itself a PDF name: stripping it gives back the stem with
      "-compressed", so compressing the compressed file again adds one more. */
  lemma CompressedNameIsPdf(name: string)
    ensures EndsWithPdf(CompressedName(name))
    ensures StripPdf(CompressedName(name)) == StripPdf(name) + "-compressed"
  {
    var s := StripPdf(name);
    assert "-compressed.pdf" == "-compressed" + ".pdf";
    assert CompressedName(name) == (s + "-compressed") + ".pdf";
    StripPdfOfAppended(s + "-compressed");
  }

  /** The Word name never ends in ".pdf". */
  lemma WordNameIsNotPdf(name: string)
    ensures !EndsWithPdf(WordName(name))
  {
    var w := WordName(name);
    var s := StripPdf(name);
    assert w[|s| + 4] == ".docx"[4] == 'x';
  }
}
