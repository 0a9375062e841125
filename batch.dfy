/** The POST handler of the batch merge (api/merge-batch.js lines 67-157): validate the
    counts, merge pair by pair, archive the merged files, and clean up. */
module BatchMerge {
  import opened Wrappers
  import opened Text
  import opened PairSort
  import opened Naming
  import opened FileStore
  import opened PairMerge
  import opened Archive

  const MissingFilesError := "Debes adjuntar órdenes y facturas (formatos PDF)."
  const CountMismatchError := "La cantidad de órdenes y facturas no coincide"
  const BatchFailedError := "No se pudo completar la fusión por lotes"

  /** What made a validated batch fail: a pair that could not be merged, or the archive. */
  datatype Failure = PairFailed(pair: nat, cause: MergeFailure) | ArchiveFailed(reason: ZipFailure)

  /** The three kinds of answer: status 400 with an error and an optional detail, status
      500 with the failure and the `detail` message when the model knows it, or the zip
      download. */
  datatype Response =
    | BadRequest(error: string, detail: Option<string>)
    | ServerError(error: string, failure: Failure, detail: Option<string>)
    | ZipDownload(fileName: string, body: Bytes)

  /** What the run does not choose: the PDF library, the upload directory and `Date.now()`. */
  datatype RunContext = RunContext(kit: PdfKit, uploadDir: string, runId: nat)

  // ---------------------------------------------------------------------------------
  // Validation (lines 71-82)
  // ---------------------------------------------------------------------------------

  /** The 400 answer for the list sizes, if any. */
  function CountError(nOrders: nat, nInvoices: nat): (r: Option<Response>)
    ensures r.None? <==> nOrders > 0 && nInvoices > 0 && nOrders == nInvoices
    ensures nOrders == 0 || nInvoices == 0 ==> r == Some(BadRequest(MissingFilesError, None))
    ensures nOrders > 0 && nInvoices > 0 && nOrders != nInvoices ==>
              r == Some(BadRequest(CountMismatchError, Some(CountSummary(nOrders, nInvoices))))
  {
    if nOrders == 0 || nInvoices == 0 then Some(BadRequest(MissingFilesError, None))
    else if nOrders != nInvoices then Some(BadRequest(CountMismatchError, Some(CountSummary(nOrders, nInvoices))))
    else None
  }

  /** The mismatch detail tells the two counts apart. */
  lemma MismatchDetailNamesCounts(n: nat, m: nat, n': nat, m': nat)
    requires n > 0 && m > 0 && n != m && n' > 0 && m' > 0 && n' != m'
    requires CountError(n, m) == CountError(n', m')
    ensures n == n' && m == m'
  {
    CountSummaryInjective(n, m, n', m');
  }

  function Paths(fs: seq<UploadedFile>): (ps: seq<string>)
    ensures |ps| == |fs| && forall k :: 0 <= k < |fs| ==> ps[k] == fs[k].path
  {
    seq(|fs|, k requires 0 <= k < |fs| => fs[k].path)
  }

  /** Sorting keeps the set of uploaded paths. */
  lemma SortedPathTargets(orders: seq<UploadedFile>, invoices: seq<UploadedFile>, leq: (string, string) -> bool)
    ensures Targets(Paths(SortBySequence(orders, leq) + SortBySequence(invoices, leq))) == Targets(Paths(orders + invoices))
  {
    var s, t := SortBySequence(orders, leq) + SortBySequence(invoices, leq), orders + invoices;
    assert multiset(s) == multiset(t);
    forall p | p in Paths(s) ensures p in Paths(t) {
      var k :| 0 <= k < |s| && Paths(s)[k] == p;
      assert s[k] in multiset(t);
      var j :| 0 <= j < |t| && t[j] == s[k];
      assert Paths(t)[j] == p;
    }
    forall p | p in Paths(t) ensures p in Paths(s) {
      var k :| 0 <= k < |t| && Paths(t)[k] == p;
      assert t[k] in multiset(s);
      var j :| 0 <= j < |s| && s[j] == t[k];
      assert Paths(s)[j] == p;
    }
  }

  // ---------------------------------------------------------------------------------
  // Paths of this run (lines 125, 131-132)
  // ---------------------------------------------------------------------------------

  /** `path.join(dir, name)` for a plain file name. */
  function JoinPath(dir: string, name: string): string { dir + "/" + name }

  /** `<UPLOAD_DIR>/<runId>_<i+1>.pdf` */
  function MergedPath(ctx: RunContext, i: nat): (p: string)
    ensures p != "" && p[|p| - 1] == 'f'
  {
    JoinPath(ctx.uploadDir, NatToString(ctx.runId) + "_" + NatToString(i + 1) + ".pdf")
  }

  /** `merge_batch_<runId>.zip` */
  function ZipName(runId: nat): string { "merge_batch_" + NatToString(runId) + ".zip" }

  function ZipPath(ctx: RunContext): (p: string)
    ensures p != "" && p[|p| - 1] == 'p'
  {
    JoinPath(ctx.uploadDir, ZipName(ctx.runId))
  }

  /** Every pair gets its own merged file. */
  lemma MergedPathInjective(ctx: RunContext, i: nat, j: nat)
    requires MergedPath(ctx, i) == MergedPath(ctx, j)
    ensures i == j
  {
    var p := ctx.uploadDir + "/" + NatToString(ctx.runId) + "_";
    assert MergedPath(ctx, i) == p + NatToString(i + 1) + ".pdf";
    assert MergedPath(ctx, j) == p + NatToString(j + 1) + ".pdf";
    NumberedNameInjective(p, i + 1, j + 1, ".pdf");
  }

  /** The merged paths of the first `n` pairs. */
  function MergedPaths(ctx: RunContext, n: nat): set<string> {
    if n == 0 then {} else MergedPaths(ctx, n - 1) + {MergedPath(ctx, n - 1)}
  }

  lemma {:induction false} MergedPathsMembers(ctx: RunContext, n: nat, p: string)
    ensures p in MergedPaths(ctx, n) <==> exists k :: 0 <= k < n && p == MergedPath(ctx, k)
  {
    if n > 0 {
      MergedPathsMembers(ctx, n - 1, p);
      if p == MergedPath(ctx, n - 1) {
        assert 0 <= n - 1 < n;
      }
    }
  }

  /** The uploads of the request are not files this run writes. */
  ghost predicate UploadsApart(files: seq<UploadedFile>, ctx: RunContext) {
    forall f, k :: f in files ==> f.path != MergedPath(ctx, k)
  }

  lemma SortedApart(files: seq<UploadedFile>, leq: (string, string) -> bool, ctx: RunContext)
    requires UploadsApart(files, ctx)
    ensures UploadsApart(SortBySequence(files, leq), ctx)
  {
    var r := SortBySequence(files, leq);
    forall f | f in r ensures f in files {
      assert f in multiset(r);
    }
  }

  // ---------------------------------------------------------------------------------
  // Bookkeeping of the merge loop (lines 91-129)
  // ---------------------------------------------------------------------------------

  /** Lines 95-96: the upload paths of one pair, each only when present. */
  function PairTargets(order: UploadedFile, invoice: UploadedFile): (ps: seq<string>)
    ensures forall p :: p in ps <==> p != "" && (p == order.path || p == invoice.path)
  {
    (if order.path != "" then [order.path] else []) + (if invoice.path != "" then [invoice.path] else [])
  }

  /** Lines 95-96: push each present upload path of the pair. */
  method TrackPair(tracked: seq<string>, order: UploadedFile, invoice: UploadedFile) returns (r: seq<string>)
    ensures r == tracked + PairTargets(order, invoice)
  {
    r := tracked;
    if order.path != "" {
      r := r + [order.path];
    }
    if invoice.path != "" {
      r := r + [invoice.path];
    }
  }

  /** `cleanupTargets` after pairs 0..n-1 have been visited. */
  function SourceTargets(orders: seq<UploadedFile>, invoices: seq<UploadedFile>, n: nat): (ps: seq<string>)
    requires n <= |orders| && n <= |invoices|
  {
    if n == 0 then [] else SourceTargets(orders, invoices, n - 1) + PairTargets(orders[n - 1], invoices[n - 1])
  }

  lemma SourceTargetsStep(orders: seq<UploadedFile>, invoices: seq<UploadedFile>, i: nat)
    requires i < |orders| && i < |invoices|
    ensures SourceTargets(orders, invoices, i + 1) == SourceTargets(orders, invoices, i) + PairTargets(orders[i], invoices[i])
  {
  }

  /** `cleanupTargets` holds exactly the present upload paths of the visited pairs. */
  lemma {:induction false} SourceTargetsTracked(orders: seq<UploadedFile>, invoices: seq<UploadedFile>, n: nat, p: string)
    requires n <= |orders| && n <= |invoices|
    ensures p in Targets(SourceTargets(orders, invoices, n)) <==>
              p != "" && exists j :: 0 <= j < n && (p == orders[j].path || p == invoices[j].path)
  {
    if n > 0 {
      SourceTargetsTracked(orders, invoices, n - 1, p);
      if p != "" && (p == orders[n - 1].path || p == invoices[n - 1].path) {
        assert p in PairTargets(orders[n - 1], invoices[n - 1]);
      }
    }
  }

  function Elems(s: seq<string>): set<string> { set x | x in s }

  /** Lines 111-113 for every pair: the base name of pair k comes from order k. */
  function BaseNames(orders: seq<UploadedFile>): (bases: seq<string>)
    ensures |bases| == |orders|
    ensures forall k :: 0 <= k < |bases| ==> '/' !in bases[k]
  {
    if orders == [] then []
    else BaseNames(orders[..|orders| - 1]) + [BaseName(orders[|orders| - 1].originalName, |orders| - 1)]
  }

  lemma {:induction false} BaseNamesAt(orders: seq<UploadedFile>, k: nat)
    requires k < |orders|
    ensures BaseNames(orders)[k] == BaseName(orders[k].originalName, k)
  {
    if k < |orders| - 1 {
      var init := orders[..|orders| - 1];
      BaseNamesAt(init, k);
      assert init[k] == orders[k];
    }
  }

  /** Lines 111-123: the download name of pair `i`, given the names used so far. */
  method ChooseName(orders: seq<UploadedFile>, i: nat, usedNames: set<string>) returns (downloadName: string)
    requires i < |orders|
    ensures downloadName == ResolvedName(BaseNames(orders)[i], usedNames)
  {
    var base := BaseName(orders[i].originalName, i);
    BaseNamesAt(orders, i);
    downloadName := ResolveName(base, usedNames);
  }

  predicate Plain(bases: seq<string>) { forall k :: 0 <= k < |bases| ==> '/' !in bases[k] }

  /** `bases` can stand for the base names of `orders`. */
  predicate NamesFor(bases: seq<string>, orders: seq<UploadedFile>) { |bases| == |orders| && Plain(bases) }

  /** Lines 115-123 for the first `n` pairs: each base name resolved against the names
      chosen before it, which `usedNames` holds. */
  function DownloadNames(bases: seq<string>, n: nat): (names: seq<string>)
    requires n <= |bases| && Plain(bases)
    ensures |names| == n
  {
    if n == 0 then []
    else
      var prev := DownloadNames(bases, n - 1);
      prev + [ResolvedName(bases[n - 1], Elems(prev))]
  }

  /** `usedNames.add(downloadName)` keeps `usedNames` equal to the names chosen so far. */
  lemma NamesStep(bases: seq<string>, i: nat)
    requires i < |bases| && Plain(bases)
    ensures Elems(DownloadNames(bases, i + 1)) ==
              Elems(DownloadNames(bases, i)) + {ResolvedName(bases[i], Elems(DownloadNames(bases, i)))}
  {
  }

  /** Later pairs do not change the names of earlier ones. */
  lemma {:induction false} DownloadNamesPrefix(bases: seq<string>, n: nat, m: nat)
    requires m <= n <= |bases| && Plain(bases)
    ensures DownloadNames(bases, m) == DownloadNames(bases, n)[..m]
  {
    if m < n {
      DownloadNamesPrefix(bases, n - 1, m);
      var prev := DownloadNames(bases, n - 1);
      assert DownloadNames(bases, n) == prev + [ResolvedName(bases[n - 1], Elems(prev))];
      assert (prev + [ResolvedName(bases[n - 1], Elems(prev))])[..m] == prev[..m];
    }
  }

  predicate Distinct(s: seq<string>) { forall i, j :: 0 <= i < j < |s| ==> s[i] != s[j] }

  lemma DistinctAppend(prev: seq<string>, x: string)
    requires Distinct(prev) && x !in Elems(prev)
    ensures Distinct(prev + [x])
  {
    var s := prev + [x];
    forall i, j | 0 <= i < j < |s| ensures s[i] != s[j] {
      assert s[i] == prev[i];
      if j < |prev| {
        assert s[j] == prev[j];
      } else {
        assert prev[i] in Elems(prev);
      }
    }
  }

  /** The names in an archive are pairwise distinct. */
  lemma {:induction false} DownloadNamesDistinct(bases: seq<string>, n: nat)
    requires n <= |bases| && Plain(bases)
    ensures Distinct(DownloadNames(bases, n))
  {
    if n > 0 {
      DownloadNamesDistinct(bases, n - 1);
      var prev := DownloadNames(bases, n - 1);
      DistinctAppend(prev, ResolvedName(bases[n - 1], Elems(prev)));
    }
  }

  /** Pair k keeps its base name if no earlier pair took it, and otherwise gets the first
      free `_n` variant of it. */
  lemma DownloadNameOf(bases: seq<string>, n: nat, k: nat)
    requires k < n <= |bases| && Plain(bases)
    ensures var names := DownloadNames(bases, n);
            names[k] == ResolvedName(bases[k], Elems(names[..k]))
  {
    DownloadNamesPrefix(bases, n, k + 1);
    DownloadNamesPrefix(bases, n, k);
    assert DownloadNames(bases, n)[..k + 1][..k] == DownloadNames(bases, n)[..k];
  }

  /** `created` after `n` pairs. */
  function Created(ctx: RunContext, bases: seq<string>, n: nat): (c: seq<Artifact>)
    requires n <= |bases| && Plain(bases)
    ensures |c| == n
    ensures forall k :: 0 <= k < n ==> c[k] == Artifact(MergedPath(ctx, k), DownloadNames(bases, n)[k])
  {
    var names := DownloadNames(bases, n);
    seq(n, k requires 0 <= k < n => Artifact(MergedPath(ctx, k), names[k]))
  }

  lemma CreatedStep(ctx: RunContext, bases: seq<string>, n: nat)
    requires n < |bases| && Plain(bases)
    ensures Created(ctx, bases, n + 1) ==
              Created(ctx, bases, n) + [Artifact(MergedPath(ctx, n), ResolvedName(bases[n], Elems(DownloadNames(bases, n))))]
  {
  }

  function ArtifactPaths(created: seq<Artifact>): (ps: seq<string>)
    ensures |ps| == |created| && forall k :: 0 <= k < |created| ==> ps[k] == created[k].path
  {
    seq(|created|, k requires 0 <= k < |created| => created[k].path)
  }

  lemma CreatedTargets(ctx: RunContext, bases: seq<string>, n: nat)
    requires n <= |bases| && Plain(bases)
    ensures Targets(ArtifactPaths(Created(ctx, bases, n))) == MergedPaths(ctx, n)
  {
    var ps := ArtifactPaths(Created(ctx, bases, n));
    forall p ensures p in Targets(ps) <==> p in MergedPaths(ctx, n) {
      MergedPathsMembers(ctx, n, p);
      if p in MergedPaths(ctx, n) {
        var k :| 0 <= k < n && p == MergedPath(ctx, k);
        assert ps[k] == p;
      }
    }
  }

  /** Every pair among the first `n` merges. */
  predicate PairsMerge(kit: PdfKit, files: map<string, Bytes>, orders: seq<UploadedFile>, invoices: seq<UploadedFile>, n: nat)
    requires n <= |orders| && n <= |invoices|
  {
    forall k :: 0 <= k < n ==> MergedBytes(kit, files, orders[k].path, invoices[k].path).Ok?
  }

  /** The first pair among the first `n` that does not merge. */
  function FirstFailure(kit: PdfKit, files: map<string, Bytes>, orders: seq<UploadedFile>, invoices: seq<UploadedFile>, n: nat): (k: Option<nat>)
    requires n <= |orders| && n <= |invoices|
    ensures k.None? <==> PairsMerge(kit, files, orders, invoices, n)
    ensures k.Some? ==> k.value < n && MergedBytes(kit, files, orders[k.value].path, invoices[k.value].path).Err?
    ensures k.Some? ==> PairsMerge(kit, files, orders, invoices, k.value)
  {
    if n == 0 then None
    else
      match FirstFailure(kit, files, orders, invoices, n - 1)
      case Some(k) => Some(k)
      case None =>
        if MergedBytes(kit, files, orders[n - 1].path, invoices[n - 1].path).Err? then Some(n - 1) else None
  }

  /** A failing pair after a run of merging ones is the first failure of every longer
      prefix. */
  lemma {:induction false} FirstFailureAt(kit: PdfKit, files: map<string, Bytes>, orders: seq<UploadedFile>, invoices: seq<UploadedFile>, k: nat, n: nat)
    requires k < n <= |orders| && n <= |invoices|
    requires PairsMerge(kit, files, orders, invoices, k)
    requires MergedBytes(kit, files, orders[k].path, invoices[k].path).Err?
    ensures FirstFailure(kit, files, orders, invoices, n) == Some(k)
  {
    if k < n - 1 {
      FirstFailureAt(kit, files, orders, invoices, k, n - 1);
    } else {
      assert FirstFailure(kit, files, orders, invoices, n - 1).None?;
    }
  }

  /** The disk once the first `n` pairs have been merged and written. */
  function Outputs(ctx: RunContext, files: map<string, Bytes>, orders: seq<UploadedFile>, invoices: seq<UploadedFile>, n: nat): map<string, Bytes>
    requires n <= |orders| && n <= |invoices| && PairsMerge(ctx.kit, files, orders, invoices, n)
  {
    if n == 0 then files
    else
      Outputs(ctx, files, orders, invoices, n - 1)[MergedPath(ctx, n - 1) :=
        MergedBytes(ctx.kit, files, orders[n - 1].path, invoices[n - 1].path).value]
  }

  /** Paths other than the merged ones are as before. */
  lemma {:induction false} OutputsElsewhere(ctx: RunContext, files: map<string, Bytes>, orders: seq<UploadedFile>, invoices: seq<UploadedFile>, n: nat, p: string)
    requires n <= |orders| && n <= |invoices| && PairsMerge(ctx.kit, files, orders, invoices, n)
    requires p !in MergedPaths(ctx, n)
    ensures p in Outputs(ctx, files, orders, invoices, n) <==> p in files
    ensures p in files ==> Outputs(ctx, files, orders, invoices, n)[p] == files[p]
  {
    if n > 0 {
      OutputsElsewhere(ctx, files, orders, invoices, n - 1, p);
    }
  }

  /** The merged file of pair k holds pair k's document. */
  lemma {:induction false} OutputsAt(ctx: RunContext, files: map<string, Bytes>, orders: seq<UploadedFile>, invoices: seq<UploadedFile>, n: nat, k: nat)
    requires k < n <= |orders| && n <= |invoices| && PairsMerge(ctx.kit, files, orders, invoices, n)
    ensures MergedPath(ctx, k) in Outputs(ctx, files, orders, invoices, n)
    ensures Outputs(ctx, files, orders, invoices, n)[MergedPath(ctx, k)] ==
              MergedBytes(ctx.kit, files, orders[k].path, invoices[k].path).value
  {
    if k < n - 1 {
      OutputsAt(ctx, files, orders, invoices, n - 1, k);
      if MergedPath(ctx, n - 1) == MergedPath(ctx, k) {
        MergedPathInjective(ctx, n - 1, k);
      }
    }
  }

  /** Merging and writing pair `i` extends the outputs by its file. */
  lemma OutputsStep(ctx: RunContext, files: map<string, Bytes>, orders: seq<UploadedFile>, invoices: seq<UploadedFile>, i: nat)
    requires i < |orders| && i < |invoices| && PairsMerge(ctx.kit, files, orders, invoices, i)
    requires MergedBytes(ctx.kit, files, orders[i].path, invoices[i].path).Ok?
    ensures PairsMerge(ctx.kit, files, orders, invoices, i + 1)
    ensures Outputs(ctx, files, orders, invoices, i + 1) ==
              Outputs(ctx, files, orders, invoices, i)[MergedPath(ctx, i) := MergedBytes(ctx.kit, files, orders[i].path, invoices[i].path).value]
  {
  }

  /** While pair `i` is merged, its sources read as they did before the loop. */
  lemma OutputsKeepSources(ctx: RunContext, files: map<string, Bytes>, orders: seq<UploadedFile>, invoices: seq<UploadedFile>, i: nat)
    requires i < |orders| && i < |invoices| && PairsMerge(ctx.kit, files, orders, invoices, i)
    requires UploadsApart(orders, ctx) && UploadsApart(invoices, ctx)
    ensures MergedBytes(ctx.kit, Outputs(ctx, files, orders, invoices, i), orders[i].path, invoices[i].path)
            == MergedBytes(ctx.kit, files, orders[i].path, invoices[i].path)
  {
    var o, v := orders[i], invoices[i];
    assert o in orders && v in invoices;
    MergedPathsMembers(ctx, i, o.path);
    MergedPathsMembers(ctx, i, v.path);
    OutputsElsewhere(ctx, files, orders, invoices, i, o.path);
    OutputsElsewhere(ctx, files, orders, invoices, i, v.path);
    MergeReadsOnlySources(ctx.kit, files, Outputs(ctx, files, orders, invoices, i), o.path, v.path);
  }

  /** Removing the merged files undoes the writes: the outputs leave no trace once they
      are unlinked. */
  lemma {:induction false} OutputsCleaned(ctx: RunContext, files: map<string, Bytes>, orders: seq<UploadedFile>, invoices: seq<UploadedFile>, n: nat, gone: set<string>)
    requires n <= |orders| && n <= |invoices| && PairsMerge(ctx.kit, files, orders, invoices, n)
    requires MergedPaths(ctx, n) <= gone
    ensures Without(Outputs(ctx, files, orders, invoices, n), gone) == Without(files, gone)
  {
    if n > 0 {
      OutputsCleaned(ctx, files, orders, invoices, n - 1, gone);
      assert MergedPath(ctx, n - 1) in gone;
    }
  }

  /** The archive of a batch whose pairs all merged: pair k's document under pair k's
      download name, in pair order. */
  function Archived(ctx: RunContext, files: map<string, Bytes>, orders: seq<UploadedFile>, invoices: seq<UploadedFile>, bases: seq<string>): (ms: seq<ZipMember>)
    requires |orders| == |invoices| && PairsMerge(ctx.kit, files, orders, invoices, |orders|) && NamesFor(bases, orders)
  {
    var names := DownloadNames(bases, |orders|);
    seq(|orders|, k requires 0 <= k < |orders| =>
      ZipMember(names[k], MergedBytes(ctx.kit, files, orders[k].path, invoices[k].path).value))
  }

  /** After the loop every created file holds its pair's document. */
  lemma CreatedWritten(ctx: RunContext, files: map<string, Bytes>, orders: seq<UploadedFile>, invoices: seq<UploadedFile>, bases: seq<string>)
    requires |orders| == |invoices| && PairsMerge(ctx.kit, files, orders, invoices, |orders|) && NamesFor(bases, orders)
    ensures var out := Outputs(ctx, files, orders, invoices, |orders|);
            var created := Created(ctx, bases, |orders|);
            forall k :: 0 <= k < |created| ==>
              && created[k].path in out
              && out[created[k].path] == MergedBytes(ctx.kit, files, orders[k].path, invoices[k].path).value
  {
    var n := |orders|;
    var created := Created(ctx, bases, n);
    forall k | 0 <= k < n
      ensures created[k].path in Outputs(ctx, files, orders, invoices, n)
      ensures Outputs(ctx, files, orders, invoices, n)[created[k].path] == MergedBytes(ctx.kit, files, orders[k].path, invoices[k].path).value
    {
      OutputsAt(ctx, files, orders, invoices, n, k);
    }
  }

  /** After the loop every created file exists and the archive is exactly `Archived`. */
  lemma ZipOfOutputs(ctx: RunContext, files: map<string, Bytes>, orders: seq<UploadedFile>, invoices: seq<UploadedFile>, bases: seq<string>)
    requires |orders| == |invoices| && PairsMerge(ctx.kit, files, orders, invoices, |orders|) && NamesFor(bases, orders)
    ensures var out := Outputs(ctx, files, orders, invoices, |orders|);
            var created := Created(ctx, bases, |orders|);
            && FirstMissing(out, created).None?
            && Members(out, created) == Archived(ctx, files, orders, invoices, bases)
  {
    CreatedWritten(ctx, files, orders, invoices, bases);
    var out := Outputs(ctx, files, orders, invoices, |orders|);
    var created := Created(ctx, bases, |orders|);
    var ms, archived := Members(out, created), Archived(ctx, files, orders, invoices, bases);
    assert |ms| == |archived|;
    forall k | 0 <= k < |ms| ensures ms[k] == archived[k] {
    }
  }

  // ---------------------------------------------------------------------------------
  // The handler
  // ---------------------------------------------------------------------------------

  /** Lines 111-127 for a merged pair: choose its download name, write its file and
      record both. */
  method RecordPair(disk: Disk, ctx: RunContext, orders: seq<UploadedFile>, ghost bases: seq<string>, i: nat, bytes: Bytes,
                    usedNames: set<string>, created: seq<Artifact>)
      returns (usedNames': set<string>, created': seq<Artifact>)
    requires i < |orders| && bases == BaseNames(orders)
    modifies disk
    ensures var name := ResolvedName(bases[i], usedNames);
            && usedNames' == usedNames + {name}
            && created' == created + [Artifact(MergedPath(ctx, i), name)]
            && disk.files == old(disk.files)[MergedPath(ctx, i) := bytes]
  {
    var downloadName := ChooseName(orders, i, usedNames);
    usedNames' := usedNames + {downloadName};
    var mergedPath := MergedPath(ctx, i);
    disk.Write(mergedPath, bytes);
    created' := created + [Artifact(mergedPath, downloadName)];
  }

  /** The state of the loop once pairs 0..i-1 have been merged and written: `usedNames`
      holds their download names, `created` their files, `cleanupTargets` their upload
      paths, and the disk their merged documents. */
  predicate Visited(ctx: RunContext, before: map<string, Bytes>, orders: seq<UploadedFile>, invoices: seq<UploadedFile>, bases: seq<string>, i: nat,
                    usedNames: set<string>, created: seq<Artifact>, cleanupTargets: seq<string>, files: map<string, Bytes>)
    requires i <= |orders| == |invoices| && NamesFor(bases, orders)
  {
    && PairsMerge(ctx.kit, before, orders, invoices, i)
    && usedNames == Elems(DownloadNames(bases, i))
    && created == Created(ctx, bases, i)
    && cleanupTargets == SourceTargets(orders, invoices, i)
    && files == Outputs(ctx, before, orders, invoices, i)
  }

  /** What the loop leaves behind: if some pair fails, the first one is the failure, its
      upload paths are tracked and only the pairs before it are written; otherwise every
      pair is written and named. */
  predicate MergeOutcome(ctx: RunContext, before: map<string, Bytes>, orders: seq<UploadedFile>, invoices: seq<UploadedFile>, bases: seq<string>,
                         created: seq<Artifact>, cleanupTargets: seq<string>, failure: Option<Failure>, files: map<string, Bytes>)
    requires |orders| == |invoices| && NamesFor(bases, orders)
  {
    match FirstFailure(ctx.kit, before, orders, invoices, |orders|)
    case None =>
      && failure.None?
      && created == Created(ctx, bases, |orders|)
      && cleanupTargets == SourceTargets(orders, invoices, |orders|)
      && files == Outputs(ctx, before, orders, invoices, |orders|)
    case Some(k) =>
      && failure == Some(PairFailed(k, MergedBytes(ctx.kit, before, orders[k].path, invoices[k].path).error))
      && created == Created(ctx, bases, k)
      && cleanupTargets == SourceTargets(orders, invoices, k + 1)
      && files == Outputs(ctx, before, orders, invoices, k)
  }

  /** One more pair merged, named and written. */
  lemma VisitedStep(ctx: RunContext, before: map<string, Bytes>, orders: seq<UploadedFile>, invoices: seq<UploadedFile>, bases: seq<string>, i: nat,
                    usedNames: set<string>, created: seq<Artifact>, cleanupTargets: seq<string>, files: map<string, Bytes>,
                    usedNames': set<string>, created': seq<Artifact>, cleanupTargets': seq<string>, files': map<string, Bytes>)
    requires i < |orders| == |invoices| && NamesFor(bases, orders)
    requires Visited(ctx, before, orders, invoices, bases, i, usedNames, created, cleanupTargets, files)
    requires MergedBytes(ctx.kit, before, orders[i].path, invoices[i].path).Ok?
    requires var name := ResolvedName(bases[i], usedNames);
             && usedNames' == usedNames + {name}
             && created' == created + [Artifact(MergedPath(ctx, i), name)]
    requires cleanupTargets' == cleanupTargets + PairTargets(orders[i], invoices[i])
    requires files' == files[MergedPath(ctx, i) := MergedBytes(ctx.kit, before, orders[i].path, invoices[i].path).value]
    ensures Visited(ctx, before, orders, invoices, bases, i + 1, usedNames', created', cleanupTargets', files')
  {
    OutputsStep(ctx, before, orders, invoices, i);
    NamesStep(bases, i);
    CreatedStep(ctx, bases, i);
    SourceTargetsStep(orders, invoices, i);
  }

  /** The loop stops at a failing pair after every pair before it merged. */
  lemma VisitedStop(ctx: RunContext, before: map<string, Bytes>, orders: seq<UploadedFile>, invoices: seq<UploadedFile>, bases: seq<string>, i: nat,
                    usedNames: set<string>, created: seq<Artifact>, cleanupTargets: seq<string>, files: map<string, Bytes>,
                    cleanupTargets': seq<string>, failure: Option<Failure>)
    requires i < |orders| == |invoices| && NamesFor(bases, orders)
    requires Visited(ctx, before, orders, invoices, bases, i, usedNames, created, cleanupTargets, files)
    requires MergedBytes(ctx.kit, before, orders[i].path, invoices[i].path).Err?
    requires cleanupTargets' == cleanupTargets + PairTargets(orders[i], invoices[i])
    requires failure == Some(PairFailed(i, MergedBytes(ctx.kit, before, orders[i].path, invoices[i].path).error))
    ensures MergeOutcome(ctx, before, orders, invoices, bases, created, cleanupTargets', failure, files)
  {
    FirstFailureAt(ctx.kit, before, orders, invoices, i, |orders|);
    SourceTargetsStep(orders, invoices, i);
  }

  /** The loop ends after every pair merged. */
  lemma VisitedAll(ctx: RunContext, before: map<string, Bytes>, orders: seq<UploadedFile>, invoices: seq<UploadedFile>, bases: seq<string>,
                   usedNames: set<string>, created: seq<Artifact>, cleanupTargets: seq<string>, files: map<string, Bytes>)
    requires |orders| == |invoices| && NamesFor(bases, orders)
    requires Visited(ctx, before, orders, invoices, bases, |orders|, usedNames, created, cleanupTargets, files)
    ensures MergeOutcome(ctx, before, orders, invoices, bases, created, cleanupTargets, None, files)
  {
  }

  /** Lines 91-129: the loop over the pairs. It stops at the first pair that fails; the
      handler's catch block then takes over. */
  method MergeAll(disk: Disk, ctx: RunContext, orders: seq<UploadedFile>, invoices: seq<UploadedFile>)
      returns (created: seq<Artifact>, cleanupTargets: seq<string>, failure: Option<Failure>)
    requires |orders| == |invoices|
    requires UploadsApart(orders, ctx) && UploadsApart(invoices, ctx)
    modifies disk
    ensures MergeOutcome(ctx, old(disk.files), orders, invoices, BaseNames(orders), created, cleanupTargets, failure, disk.files)
  {
    ghost var before := disk.files;
    ghost var bases := BaseNames(orders);
    created, cleanupTargets, failure := [], [], None;
    var usedNames: set<string> := {};
    for i := 0 to |orders|
      invariant Visited(ctx, before, orders, invoices, bases, i, usedNames, created, cleanupTargets, disk.files)
    {
      var order, invoice := orders[i], invoices[i];
      ghost var tracked := cleanupTargets;
      cleanupTargets := TrackPair(cleanupTargets, order, invoice);
      OutputsKeepSources(ctx, before, orders, invoices, i);
      var merged := MergePair(ctx.kit, disk.files, order.path, invoice.path);
      if merged.Err? {
        failure := Some(PairFailed(i, merged.error));
        VisitedStop(ctx, before, orders, invoices, bases, i, usedNames, created, tracked, disk.files, cleanupTargets, failure);
        return;
      }
      ghost var (used0, created0, files0) := (usedNames, created, disk.files);
      usedNames, created := RecordPair(disk, ctx, orders, bases, i, merged.value, usedNames, created);
      VisitedStep(ctx, before, orders, invoices, bases, i, used0, created0, tracked, files0, usedNames, created, cleanupTargets, disk.files);
    }
    VisitedAll(ctx, before, orders, invoices, bases, usedNames, created, cleanupTargets, disk.files);
  }

  /** The paths one cleanup unlinks: the tracked uploads, the created files and the zip
      path ("" while it is unassigned). */
  function Footprint(cleanupTargets: seq<string>, created: seq<Artifact>, zipPath: string): set<string> {
    Targets(cleanupTargets) + Targets(ArtifactPaths(created)) + Targets([zipPath])
  }

  /** Lines 141-143, 146-148 and 152-154: unlink the tracked uploads, the created files and
      the zip path. */
  method Cleanup(disk: Disk, cleanupTargets: seq<string>, created: seq<Artifact>, zipPath: string)
    modifies disk
    ensures disk.files == Without(old(disk.files), Footprint(cleanupTargets, created, zipPath))
  {
    ghost var before := disk.files;
    UnlinkAll(disk, cleanupTargets);
    UnlinkAll(disk, ArtifactPaths(created));
    disk.SafeUnlink(zipPath);
    WithoutUnion(before, Targets(cleanupTargets), Targets(ArtifactPaths(created)));
    WithoutUnion(before, Targets(cleanupTargets) + Targets(ArtifactPaths(created)), Targets([zipPath]));
  }

  /** What the cleanup of a validated run removes, with `tracked` pairs visited, `merged`
      pairs written and the zip path assigned or not. */
  function RunFootprint(ctx: RunContext, orders: seq<UploadedFile>, invoices: seq<UploadedFile>, bases: seq<string>, tracked: nat, merged: nat, zipAssigned: bool): set<string>
    requires tracked <= |orders| && tracked <= |invoices| && merged <= |orders| && NamesFor(bases, orders)
  {
    Footprint(SourceTargets(orders, invoices, tracked), Created(ctx, bases, merged), if zipAssigned then ZipPath(ctx) else "")
  }

  /** The footprint is exactly the present upload paths of the visited pairs, the merged
      files of the written pairs and, once assigned, the zip. */
  lemma RunFootprintMembers(ctx: RunContext, orders: seq<UploadedFile>, invoices: seq<UploadedFile>, bases: seq<string>, tracked: nat, merged: nat, zipAssigned: bool, p: string)
    requires tracked <= |orders| && tracked <= |invoices| && merged <= |orders| && NamesFor(bases, orders)
    ensures p in RunFootprint(ctx, orders, invoices, bases, tracked, merged, zipAssigned) <==>
              || (p != "" && exists j :: 0 <= j < tracked && (p == orders[j].path || p == invoices[j].path))
              || (exists k :: 0 <= k < merged && p == MergedPath(ctx, k))
              || (zipAssigned && p == ZipPath(ctx))
  {
    SourceTargetsTracked(orders, invoices, tracked, p);
    CreatedTargets(ctx, bases, merged);
    MergedPathsMembers(ctx, merged, p);
    TargetsOfOne(if zipAssigned then ZipPath(ctx) else "");
  }

  /** After a failed pair, cleanup leaves the disk as it was, less the run's footprint. */
  lemma FailureCleanup(ctx: RunContext, before: map<string, Bytes>, o: seq<UploadedFile>, v: seq<UploadedFile>, bases: seq<string>, k: nat)
    requires k < |o| == |v| && PairsMerge(ctx.kit, before, o, v, k) && NamesFor(bases, o)
    ensures Without(Outputs(ctx, before, o, v, k), RunFootprint(ctx, o, v, bases, k + 1, k, false)) ==
              Without(before, RunFootprint(ctx, o, v, bases, k + 1, k, false))
  {
    CreatedTargets(ctx, bases, k);
    OutputsCleaned(ctx, before, o, v, k, RunFootprint(ctx, o, v, bases, k + 1, k, false));
  }

  /** After the archive step, cleanup leaves the disk as it was, less the run's footprint,
      whether or not the archive was written, and a second cleanup changes nothing. */
  lemma ArchiveCleanup(ctx: RunContext, before: map<string, Bytes>, o: seq<UploadedFile>, v: seq<UploadedFile>, bases: seq<string>, files: map<string, Bytes>)
    requires |o| == |v| && PairsMerge(ctx.kit, before, o, v, |o|) && NamesFor(bases, o)
    requires var out := Outputs(ctx, before, o, v, |o|);
             files == out || (ZipPath(ctx) in files && files == out[ZipPath(ctx) := files[ZipPath(ctx)]])
    ensures var footprint := RunFootprint(ctx, o, v, bases, |o|, |o|, true);
            && Without(files, footprint) == Without(before, footprint)
            && Without(Without(files, footprint), footprint) == Without(files, footprint)
  {
    var footprint := RunFootprint(ctx, o, v, bases, |o|, |o|, true);
    CreatedTargets(ctx, bases, |o|);
    OutputsCleaned(ctx, before, o, v, |o|, footprint);
    TargetsOfOne(ZipPath(ctx));
    ZipWriteCleaned(Outputs(ctx, before, o, v, |o|), footprint, ZipPath(ctx), files);
    WithoutIdempotent(files, footprint);
  }

  /** Lines 131-154 once every pair has merged: archive the merged files, answer with the
      archive and clean up, once more if the download stream fails. */
  method ArchiveAndRespond(disk: Disk, ctx: RunContext, pack: seq<ZipMember> -> Bytes,
                           o: seq<UploadedFile>, v: seq<UploadedFile>, created: seq<Artifact>, cleanupTargets: seq<string>,
                           spawnOk: bool, streamError: bool, ghost before: map<string, Bytes>, ghost bases: seq<string>)
      returns (resp: Response)
    requires |o| == |v| && PairsMerge(ctx.kit, before, o, v, |o|) && NamesFor(bases, o)
    requires cleanupTargets == SourceTargets(o, v, |o|)
    requires created == Created(ctx, bases, |o|)
    requires disk.files == Outputs(ctx, before, o, v, |o|)
    modifies disk
    ensures resp == (if spawnOk && o != [] then ZipDownload(ZipName(ctx.runId), pack(Archived(ctx, before, o, v, bases)))
                     else ServerError(BatchFailedError, ArchiveFailed(if o == [] then NothingToZip else SpawnFailed),
                                      ZipMessage(if o == [] then NothingToZip else SpawnFailed)))
    ensures disk.files == Without(before, RunFootprint(ctx, o, v, bases, |o|, |o|, true))
  {
    var zipName := ZipName(ctx.runId);
    var zipPath := JoinPath(ctx.uploadDir, zipName);
    ZipOfOutputs(ctx, before, o, v, bases);
    ArtifactPathsApart(ctx, bases, |o|);
    var outcome := CreateZip(disk, pack, created, zipPath, spawnOk);
    ArchiveCleanup(ctx, before, o, v, bases, disk.files);
    if outcome.ZipFailed? {
      Cleanup(disk, cleanupTargets, created, zipPath);
      return ServerError(BatchFailedError, ArchiveFailed(outcome.reason), ZipMessage(outcome.reason));
    }
    resp := ZipDownload(zipName, disk.files[zipPath]);
    if streamError {
      Cleanup(disk, cleanupTargets, created, zipPath);
    }
    Cleanup(disk, cleanupTargets, created, zipPath);
  }

  /** The answer and the disk afterwards of a run whose counts agree: the first pair that
      does not merge answers status 500 and its uploads up to it and the files merged
      before it are removed; otherwise the archive of every pair is the download (or its
      failure the 500 answer), and the uploads, merged files and the zip are removed. */
  predicate RunOutcome(ctx: RunContext, pack: seq<ZipMember> -> Bytes, o: seq<UploadedFile>, v: seq<UploadedFile>, spawnOk: bool,
                       before: map<string, Bytes>, resp: Response, after: map<string, Bytes>)
    requires |o| == |v|
  {
    var bases := BaseNames(o);
    match FirstFailure(ctx.kit, before, o, v, |o|)
    case Some(k) =>
      && resp == ServerError(BatchFailedError, PairFailed(k, MergedBytes(ctx.kit, before, o[k].path, v[k].path).error), None)
      && after == Without(before, RunFootprint(ctx, o, v, bases, k + 1, k, false))
    case None =>
      && resp == (if spawnOk && o != [] then ZipDownload(ZipName(ctx.runId), pack(Archived(ctx, before, o, v, bases)))
                  else ServerError(BatchFailedError, ArchiveFailed(if o == [] then NothingToZip else SpawnFailed),
                                      ZipMessage(if o == [] then NothingToZip else SpawnFailed)))
      && after == Without(before, RunFootprint(ctx, o, v, bases, |o|, |o|, true))
  }

  /** Lines 84-155 once the counts agree: merge, archive, answer, clean up. */
  method RunPairs(disk: Disk, ctx: RunContext, pack: seq<ZipMember> -> Bytes,
                  o: seq<UploadedFile>, v: seq<UploadedFile>, spawnOk: bool, streamError: bool)
      returns (resp: Response)
    requires |o| == |v| && UploadsApart(o, ctx) && UploadsApart(v, ctx)
    modifies disk
    ensures RunOutcome(ctx, pack, o, v, spawnOk, old(disk.files), resp, disk.files)
  {
    ghost var before := disk.files;
    ghost var bases := BaseNames(o);
    var created, cleanupTargets, failure := MergeAll(disk, ctx, o, v);
    if failure.Some? {
      ghost var k := FirstFailure(ctx.kit, before, o, v, |o|).value;
      FailureCleanup(ctx, before, o, v, bases, k);
      Cleanup(disk, cleanupTargets, created, "");
      return ServerError(BatchFailedError, failure.value, None);
    }
    resp := ArchiveAndRespond(disk, ctx, pack, o, v, created, cleanupTargets, spawnOk, streamError, before, bases);
  }

  /** No merged file is the archive. */
  lemma ArtifactPathsApart(ctx: RunContext, bases: seq<string>, n: nat)
    requires n <= |bases| && Plain(bases)
    ensures forall j :: 0 <= j < n ==> Created(ctx, bases, n)[j].path != ZipPath(ctx)
  {
    forall j | 0 <= j < n ensures Created(ctx, bases, n)[j].path != ZipPath(ctx) {
      var p, q := MergedPath(ctx, j), ZipPath(ctx);
      assert p[|p| - 1] != q[|q| - 1];
    }
  }

  /** Writing the archive leaves no trace once its path is unlinked. */
  lemma ZipWriteCleaned(out: map<string, Bytes>, footprint: set<string>, zipPath: string, files: map<string, Bytes>)
    requires zipPath in footprint
    requires files == out || (zipPath in files && files == out[zipPath := files[zipPath]])
    ensures Without(files, footprint) == Without(out, footprint)
  {
  }

  /** The POST handler. `leq` is the collation, `pack` the zip format, `spawnOk` whether
      python3 starts, `streamError` whether the download stream fails (its `error`
      listener then cleans up before the `close` listener does it again). */
  method HandleBatch(disk: Disk, ctx: RunContext, leq: (string, string) -> bool, pack: seq<ZipMember> -> Bytes,
                     orders: seq<UploadedFile>, invoices: seq<UploadedFile>, spawnOk: bool, streamError: bool)
      returns (resp: Response)
    requires UploadsApart(orders, ctx) && UploadsApart(invoices, ctx)
    modifies disk
    ensures CountError(|orders|, |invoices|).Some? ==>
              && resp == CountError(|orders|, |invoices|).value
              && disk.files == Without(old(disk.files), Targets(Paths(orders + invoices)))
    ensures CountError(|orders|, |invoices|).None? ==>
              RunOutcome(ctx, pack, SortBySequence(orders, leq), SortBySequence(invoices, leq), spawnOk, old(disk.files), resp, disk.files)
  {
    var o := SortBySequence(orders, leq);
    var v := SortBySequence(invoices, leq);
    var countError := CountError(|o|, |v|);
    assert countError == CountError(|orders|, |invoices|);
    if countError.Some? {
      SortedPathTargets(orders, invoices, leq);
      UnlinkAll(disk, Paths(o + v));
      return countError.value;
    }
    SortedApart(orders, leq, ctx);
    SortedApart(invoices, leq, ctx);
    resp := RunPairs(disk, ctx, pack, o, v, spawnOk, streamError);
  }
}
