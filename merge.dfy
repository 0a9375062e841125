/** One merged document per pair: the order's pages followed by the invoice's pages
    (api/merge-batch.js lines 98-109). */
module PairMerge {
  import opened Wrappers
  import opened Text

  /** A page as the PDF library copies it; its contents are opaque here. */
  datatype Page = Page(content: Bytes)

  /** The PDF library: `PDFDocument.load` parses bytes into pages or fails, and `save`
      serialises a document. */
  datatype PdfKit = PdfKit(parse: Bytes -> Option<seq<Page>>, serialize: seq<Page> -> Bytes)

  /** Why a pair could not be merged: a path that cannot be read (`toBuffer` rejects),
      or bytes that are not a PDF (`PDFDocument.load` rejects). */
  datatype MergeFailure = Unreadable(path: string) | NotPdf(path: string)

  /** `PDFDocument.load(await toBuffer(path))` */
  function LoadPdf(kit: PdfKit, files: map<string, Bytes>, path: string): (r: Result<seq<Page>, MergeFailure>)
  {
    if path == "" || path !in files then Err(Unreadable(path))
    else
      match kit.parse(files[path])
      case None => Err(NotPdf(path))
      case Some(pages) => Ok(pages)
  }

  /** The two `forEach(addPage)` loops: every order page, then every invoice page, each
      in its own order. */
  method CopyPages(orderPages: seq<Page>, invoicePages: seq<Page>) returns (doc: seq<Page>)
    ensures |doc| == |orderPages| + |invoicePages|
    ensures forall k :: 0 <= k < |orderPages| ==> doc[k] == orderPages[k]
    ensures forall k :: 0 <= k < |invoicePages| ==> doc[|orderPages| + k] == invoicePages[k]
  {
    doc := [];
    for k := 0 to |orderPages|
      invariant doc == orderPages[..k]
    {
      doc := doc + [orderPages[k]];
    }
    for k := 0 to |invoicePages|
      invariant doc == orderPages + invoicePages[..k]
    {
      doc := doc + [invoicePages[k]];
    }
  }

  /** The bytes saved for one pair, or the first failure: the order is read and parsed
      before the invoice. */
  function MergedBytes(kit: PdfKit, files: map<string, Bytes>, orderPath: string, invoicePath: string): (r: Result<Bytes, MergeFailure>)
  {
    match LoadPdf(kit, files, orderPath)
    case Err(e) => Err(e)
    case Ok(o) =>
      match LoadPdf(kit, files, invoicePath)
      case Err(e) => Err(e)
      case Ok(v) => Ok(kit.serialize(o + v))
  }

  /** Lines 98-109 for one pair: load both documents, copy their pages, save. */
  method MergePair(kit: PdfKit, files: map<string, Bytes>, orderPath: string, invoicePath: string)
      returns (r: Result<Bytes, MergeFailure>)
    ensures r == MergedBytes(kit, files, orderPath, invoicePath)
  {
    var orderPdf := LoadPdf(kit, files, orderPath);
    if orderPdf.Err? {
      return Err(orderPdf.error);
    }
    var invoicePdf := LoadPdf(kit, files, invoicePath);
    if invoicePdf.Err? {
      return Err(invoicePdf.error);
    }
    var doc := CopyPages(orderPdf.value, invoicePdf.value);
    assert doc == orderPdf.value + invoicePdf.value;
    r := Ok(kit.serialize(doc));
  }

  /** The pair merges exactly when both paths hold a readable PDF. */
  lemma MergeSucceedsIff(kit: PdfKit, files: map<string, Bytes>, orderPath: string, invoicePath: string)
    ensures MergedBytes(kit, files, orderPath, invoicePath).Ok? <==>
              && orderPath != "" && orderPath in files && kit.parse(files[orderPath]).Some?
              && invoicePath != "" && invoicePath in files && kit.parse(files[invoicePath]).Some?
  {
  }

  /** A merged pair is saved from the order's pages followed by the invoice's pages. */
  lemma MergedDocument(kit: PdfKit, files: map<string, Bytes>, orderPath: string, invoicePath: string)
    requires MergedBytes(kit, files, orderPath, invoicePath).Ok?
    ensures orderPath in files && invoicePath in files
    ensures MergedBytes(kit, files, orderPath, invoicePath).value ==
              kit.serialize(kit.parse(files[orderPath]).value + kit.parse(files[invoicePath]).value)
  {
  }

  /** A failing pair reports the order when the order fails, whatever the invoice. */
  lemma MergeFailureNamesFirstBadFile(kit: PdfKit, files: map<string, Bytes>, orderPath: string, invoicePath: string)
    requires MergedBytes(kit, files, orderPath, invoicePath).Err?
    ensures LoadPdf(kit, files, orderPath).Err? ==>
              MergedBytes(kit, files, orderPath, invoicePath).error.path == orderPath
    ensures LoadPdf(kit, files, orderPath).Ok? ==>
              MergedBytes(kit, files, orderPath, invoicePath).error.path == invoicePath
    ensures MergedBytes(kit, files, orderPath, invoicePath).error.Unreadable? <==>
              (if LoadPdf(kit, files, orderPath).Err? then orderPath == "" || orderPath !in files
               else invoicePath == "" || invoicePath !in files)
  {
  }

  /** Only the two source files are read: the merge gives the same result on any disk that
      agrees with this one on them. */
  lemma MergeReadsOnlySources(kit: PdfKit, files: map<string, Bytes>, files': map<string, Bytes>, orderPath: string, invoicePath: string)
    requires orderPath in files <==> orderPath in files'
    requires orderPath in files ==> files[orderPath] == files'[orderPath]
    requires invoicePath in files <==> invoicePath in files'
    requires invoicePath in files ==> files[invoicePath] == files'[invoicePath]
    ensures MergedBytes(kit, files, orderPath, invoicePath) == MergedBytes(kit, files', orderPath, invoicePath)
  {
  }
}
