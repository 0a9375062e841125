# Batch merge of purchase orders and invoices

A Dafny model of the batch merge pipeline of a small PDF tool server, and of the browser code that feeds it.

A request carries a list of purchase orders and a list of invoices, both PDF uploads. The handler works in this order:

- It sorts each list by the first number in the file names.
- It rejects the request when either list is empty or the two lengths differ.
- It merges pair `i` into one PDF: the pages of order `i` followed by the pages of invoice `i`.
- It names each merged file after its order. A name already used in the batch gets a `_n` suffix.
- It writes the merged files into the upload directory, zips them and streams the zip back.
- On every exit path it unlinks what it tracked: the uploads, the merged files and the zip.

On the page, a drop of files is filtered to PDFs and split into orders and invoices by keywords in the names. The form refuses to submit lists the server would reject. The two single-file tools, compress and PDF to Word, rename their downloads.

Modules, in dependency order:

- `Wrappers`: `Option` and `Result`.
- `Text`: digits, decimal printing, the `/\.pdf$/i` test, ASCII lower-casing, substring search and the `Órdenes: n, Facturas: m` summary.
- `SequenceKey`: `extractSeq`, the first match of `/(\d+(?:[.,]\d+)?)/` and its exact value.
- `PairSort`: the comparator of `sortBySequence`, and the sort as a stable insertion sort.
- `Naming`: the base download name (trim, fallback, extension, separators), `path.extname` and `path.basename`, and the `_n` suffix search.
- `FileStore`: the upload directory as a `Disk` class with a `map` from path to bytes, `safeUnlink`, and the parallel unlink of a list.
- `Archive`: `createZip` and the archive it writes.
- `PairMerge`: loading, page copying and saving for one pair.
- `BatchMerge`: the POST handler. It covers validation, the merge loop and its bookkeeping (`usedNames`, `created`, `cleanupTargets`), archiving, the response and cleanup.
- `BatchDrop`: the drop classifier, the form state, the pre-submit check and the download renames.

These are left abstract and passed in as parameters:

- The collation of `localeCompare` (`leq`).
- The PDF library (`PdfKit`: `parse` and `serialize`).
- The zip format (`pack`).
- `Date.now()` (`runId`).
- The upload directory.
- Whether `python3` starts (`spawnOk`).
- Whether the download stream fails (`streamError`).

The cleanup is not the same on every exit path, and the model follows the code on each:

- The two 400 answers unlink every upload of the request (api/merge-batch.js:72 and 77).
- After pair `k` fails, the merged files of pairs `0..k-1` are unlinked and, of the uploads, only those pushed at lines 95-96 for pairs `0..k` (lines 151-154), so the uploads of pairs `k+1..` stay on disk. `BatchMerge.RunFootprintMembers` states exactly which paths are removed.
- When the download stream errors, both the `error` and the `close` listeners (lines 140-149) run the cleanup. `BatchMerge.ArchiveAndRespond` models both runs, and `BatchMerge.ArchiveCleanup` proves the second run changes nothing.

## Model

| member | source | states |
|---|---|---|
| Text.NatToString | api/merge-batch.js:80 | a printed count is a non-empty run of digits with no leading zero |
| Text.NatToStringRoundTrip | api/merge-batch.js:80 | reading the printed digits back gives the number |
| Text.NatToStringInjective | api/merge-batch.js:125 | distinct numbers print as distinct strings |
| Text.EndsWithPdf | api/merge-batch.js:112 | the `/\.pdf$/i` test: a '.' and then p, d and f, each in either case, end the name |
| Text.EndsWithPdfSuffix | api/merge-batch.js:112 | a name with ".pdf" appended passes `/\.pdf$/i` |
| Text.Lower | public/app.js:204 | lower-casing keeps the length and lower-cases each character |
| Text.CountSummary | api/merge-batch.js:80 | the template `Órdenes: ${n}, Facturas: ${m}`, which public/app.js:226 prints too |
| Text.Contains | public/app.js:205-206 | an unanchored regular expression test of a literal word: the word occurs at some position of the name |
| Text.CountSummaryInjective | api/merge-batch.js:80 | the `Órdenes: n, Facturas: m` detail determines both counts |
| Text.NumberedNameInjective | api/merge-batch.js:125 | a name of the form prefix, number, suffix determines the number |
| SequenceKey.FirstDigitFrom | api/merge-batch.js:18 | the first digit at or after a position, or the end when there is none |
| SequenceKey.DigitRunEnd | api/merge-batch.js:18 | the end of the longest run of digits from a position (a greedy `\d*`: the position itself when no digit is there) |
| SequenceKey.FirstMatch | api/merge-batch.js:18 | no match exactly when the name has no digit; otherwise the match is leftmost and greedy, and takes the fraction only when a separator and a digit follow |
| SequenceKey.FirstMatchUnique | api/merge-batch.js:18 | every leftmost greedy match is the one the matcher returns |
| SequenceKey.DecimalValue | api/merge-batch.js:20 | the exact number `whole.fraction`: the whole part plus the fraction's digits over ten to their count |
| SequenceKey.SpanValue | api/merge-batch.js:20 | the value `Number` gives the matched text once ',' is read as '.': a decimal when a fraction was matched, otherwise the whole part |
| SequenceKey.ExtractSeq | api/merge-batch.js:17-22 | the key is NaN (None) exactly when the name has no digit |
| SequenceKey.ExtractSeqIsFirstMatchValue | api/merge-batch.js:17-22 | the key is the exact value of the first match |
| SequenceKey.SingleNumberKey | api/merge-batch.js:17-22 | a name with a single run of digits is keyed by that run's number |
| SequenceKey.DecimalMatch | api/merge-batch.js:18 | in `prefix whole sep fraction rest`, the match spans exactly the whole part, the separator and the fraction |
| SequenceKey.DecimalKey | api/merge-batch.js:18-20 | such a name is keyed by the decimal number `whole.fraction` |
| SequenceKey.SeparatorSwapMatch | api/merge-batch.js:18 | swapping `,` and `.` moves no match boundary |
| SequenceKey.SeparatorIrrelevant | api/merge-batch.js:20 | a comma and a point give the same key |
| SequenceKey.KeyOfOrden2 | api/merge-batch.js:17-22 | "orden2.pdf" has key 2 |
| SequenceKey.KeyOfOrden10 | api/merge-batch.js:17-22 | "orden10.pdf" has key 10 |
| SequenceKey.KeyOfOrden1 | api/merge-batch.js:17-22 | "orden1.pdf" has key 1 |
| SequenceKey.KeyOfDecimalComma | api/merge-batch.js:17-22 | "factura_12,5.pdf" has key 12.5 |
| SequenceKey.KeyOfScan | api/merge-batch.js:19 | "scan.pdf" has no key |
| PairSort.Before | api/merge-batch.js:25-32 | the comparator returns at most 0: a smaller key first, a keyed file before a keyless one, and the collation otherwise |
| PairSort.BeforeTotal | api/merge-batch.js:28-31 | for any two files the comparator allows at least one order |
| PairSort.BeforeTransitive | api/merge-batch.js:28-31 | the comparator is transitive |
| PairSort.Insert | api/merge-batch.js:25 | inserting adds exactly that file to the multiset |
| PairSort.InsertSorted | api/merge-batch.js:25 | inserting into a sorted list keeps it sorted |
| PairSort.SortBySequence | api/merge-batch.js:24-33 | the sorted list is a permutation of the input |
| PairSort.SortIsSorted | api/merge-batch.js:24-33 | the sorted list is ordered by the comparator |
| PairSort.SortedOrder | api/merge-batch.js:28-31 | smaller keys come first, keyed files come before keyless ones, and the collation orders equal or missing keys |
| PairSort.TiedExclusive | api/merge-batch.js:25 | a file cannot tie with both a file and a file that one may not precede |
| PairSort.InsertTied | api/merge-batch.js:25 | inserting keeps the order of the files tied with the inserted one |
| PairSort.SortIsStable | api/merge-batch.js:24-33 | files that compare equal keep their upload order |
| PairSort.SortKeepsSorted | api/merge-batch.js:24-33 | a sorted list is returned unchanged |
| PairSort.SortIdempotent | api/merge-batch.js:24-33 | sorting twice is sorting once |
| PairSort.SortByKeys | api/merge-batch.js:28 | files keyed 2, 10 and 1 sort as 1, 2, 10 whatever the collation |
| PairSort.SortExample | api/merge-batch.js:24-33 | "orden2.pdf", "orden10.pdf", "orden1.pdf" sort as orden1, orden2, orden10 |
| Naming.IsTrimmable | api/merge-batch.js:111 | the characters `trim` removes: the ECMAScript white space and line terminators |
| Naming.DropLeading | api/merge-batch.js:111 | removes a whitespace prefix and leaves a visible first character |
| Naming.DropTrailing | api/merge-batch.js:111 | removes a whitespace suffix and leaves a visible last character |
| Naming.Trim | api/merge-batch.js:111 | the trimmed name is empty exactly when the name is all whitespace; otherwise both its ends are visible |
| Naming.TrimIsInfix | api/merge-batch.js:111 | the name is leading whitespace, then the trimmed name, then trailing whitespace |
| Naming.TrimVisible | api/merge-batch.js:111 | a name with visible ends is its own trim |
| Naming.Fallback | api/merge-batch.js:111 | `orden_<i+1>.pdf` ends in ".pdf" and has no separator |
| Naming.WithPdfExt | api/merge-batch.js:112 | the result ends in ".pdf"; a name that does is kept, any other gains exactly ".pdf" |
| Naming.Sanitize | api/merge-batch.js:113 | after the replacement no slash or backslash is left, other characters and the length are kept, and a ".pdf" ending survives |
| Naming.PickedName | api/merge-batch.js:111 | the name the pair starts from is non-empty with visible ends |
| Naming.BaseName | api/merge-batch.js:111-113 | every base name is non-empty, ends in ".pdf" and has no separator |
| Naming.BaseNameVisibleStart | api/merge-batch.js:111-113 | every base name starts with a visible character |
| Naming.BaseNameFallback | api/merge-batch.js:111 | a missing or blank name becomes `orden_<i+1>.pdf` |
| Naming.BaseNameOfName | api/merge-batch.js:111-113 | any other name is trimmed, given ".pdf" when it lacks it, and has its separators replaced |
| Naming.BaseNameKeepsCleanName | api/merge-batch.js:111-113 | a clean name that ends in ".pdf" is kept as it is |
| Naming.BaseNameAddsExtension | api/merge-batch.js:112 | a clean name without the extension gains exactly ".pdf" |
| Naming.BaseNameIdempotent | api/merge-batch.js:111-113 | building the base name of a base name changes nothing |
| Naming.LastDot | api/merge-batch.js:117 | the position of the last '.', or None when there is no dot |
| Naming.ExtName | api/merge-batch.js:117 | the extension is empty exactly when no dot follows the first character, or the name is ".."; otherwise it is the suffix from the last dot |
| Naming.SplitExt | api/merge-batch.js:117-118 | stem followed by extension gives back the name |
| Naming.Candidate | api/merge-batch.js:120-121 | the template `${stem}_${suffix}${ext}` |
| Naming.CandidateInjective | api/merge-batch.js:120 | distinct suffixes give distinct candidate names |
| Naming.TakenBound | api/merge-batch.js:120 | while every smaller candidate is taken the suffix stays within one more than the number of used names, so the loop ends |
| Naming.FreeSuffix | api/merge-batch.js:119-121 | the smallest suffix whose candidate is free |
| Naming.ResolvedName | api/merge-batch.js:115-122 | the chosen name is not used yet, and is the base name when that is free |
| Naming.ResolvedNameIsFirstFree | api/merge-batch.js:116-121 | a taken base name becomes `stem_n + ext` for the smallest free n >= 1 |
| Naming.ResolveName | api/merge-batch.js:115-122 | the suffix loop returns the resolved name |
| Naming.ResolvedNameMinimal | api/merge-batch.js:119-121 | a free suffix with every smaller one taken is the chosen one |
| Naming.SplitPdfName | api/merge-batch.js:117-118 | "a.pdf" splits into "a" and ".pdf" |
| Naming.CollisionExample | api/merge-batch.js:115-123 | "a.pdf" three times in a batch gives "a.pdf", "a_1.pdf", "a_2.pdf" |
| Naming.DotPdfCollision | api/merge-batch.js:117-121 | ".pdf" has no extension, so its second use becomes ".pdf_1" |
| FileStore.Targets | api/merge-batch.js:62-63 | the paths a list of unlinks removes are its non-empty paths |
| FileStore.Without | api/merge-batch.js:64 | unlinking removes exactly the given paths and keeps every other file |
| FileStore.WithoutIdempotent | api/merge-batch.js:62-65 | a second cleanup removes nothing |
| FileStore.WithoutUnion | api/merge-batch.js:152-154 | the order of the unlinks does not matter |
| FileStore.TargetsOfOne | api/merge-batch.js:62-63 | one unlink removes its path, or nothing for a missing path |
| FileStore.TargetsAppend | api/merge-batch.js:72 | unlinking a list, one path after another |
| FileStore.Disk.Write | api/merge-batch.js:127 | the path now holds the bytes and nothing else changes |
| FileStore.Disk.SafeUnlink | api/merge-batch.js:62-65 | a missing or absent path changes nothing; otherwise exactly that file is removed |
| FileStore.UnlinkAll | api/merge-batch.js:72 | the parallel unlink of a list removes exactly its targets |
| Archive.ZipMessage | api/merge-batch.js:38-57 | an empty list rejects with "Nada que comprimir", a non-zero exit with `zipfile exit <code>`; only a spawn failure has no modelled message |
| Archive.FirstMissing | api/merge-batch.js:47-48 | the first entry whose file is missing, or None when all exist |
| Archive.Members | api/merge-batch.js:44-49 | one member per entry, under the entry's name, holding the entry's file |
| Archive.CreateZip | api/merge-batch.js:37-60 | the outcome and the new disk, for each case: nothing given, spawn failure, a missing entry (a partial archive, exit 1), or success (a whole archive at the destination) |
| Archive.ArchiveKeepsOrderAndNames | api/merge-batch.js:44-49 | member j has entry j's name and contents |
| Archive.MembersPrefix | api/merge-batch.js:44-49 | a prefix of the entries gives the corresponding prefix of the members |
| PairMerge.LoadPdf | api/merge-batch.js:100-101 | reading a path and parsing it: an empty or absent path is unreadable, bytes that do not parse are not a PDF |
| PairMerge.CopyPages | api/merge-batch.js:103-107 | the order's pages, then the invoice's, each in its own order |
| PairMerge.MergedBytes | api/merge-batch.js:98-109 | the reference for one pair: the order is loaded and then the invoice, the first failure wins, and otherwise the saved document is the order's pages then the invoice's |
| PairMerge.MergePair | api/merge-batch.js:98-109 | the pair's bytes or its first failure, as the load and merge steps define |
| PairMerge.MergeSucceedsIff | api/merge-batch.js:100-101 | a pair merges exactly when both paths hold parseable PDFs |
| PairMerge.MergedDocument | api/merge-batch.js:98-109 | a merged pair is the saved order pages followed by the invoice pages |
| PairMerge.MergeFailureNamesFirstBadFile | api/merge-batch.js:100-101 | a failure names the order when the order fails, otherwise the invoice, and says whether it was a read or a parse failure |
| PairMerge.MergeReadsOnlySources | api/merge-batch.js:100-101 | the merge depends only on the two source files |
| BatchMerge.CountError | api/merge-batch.js:71-82 | a 400 answer exactly when a list is empty or the lengths differ, with the message and detail of each case |
| BatchMerge.MismatchDetailNamesCounts | api/merge-batch.js:76-81 | the mismatch answer determines both counts |
| BatchMerge.Paths | api/merge-batch.js:72 | the upload paths of a list, in order |
| BatchMerge.ArtifactPaths | api/merge-batch.js:142 | the merged-file paths of `created`, in order: the projection `BatchMerge.Paths` makes of the uploads, over the other record type |
| BatchMerge.SortedPathTargets | api/merge-batch.js:68-72 | the rejection unlinks exactly the uploaded paths, sorted or not |
| BatchMerge.JoinPath | api/merge-batch.js:125 | `path.join(dir, name)` for a plain name: the directory, '/', the name |
| BatchMerge.MergedPath | api/merge-batch.js:125 | the template of line 125; a merged path ends in 'f' |
| BatchMerge.ZipName | api/merge-batch.js:131 | the template `merge_batch_${runId}.zip` |
| BatchMerge.ZipPath | api/merge-batch.js:131-132 | the template of lines 131-132; the zip path ends in 'p', so it is never a merged path |
| BatchMerge.MergedPathInjective | api/merge-batch.js:125 | distinct pairs write distinct files |
| BatchMerge.MergedPathsMembers | api/merge-batch.js:125 | the merged paths of the first n pairs |
| BatchMerge.SortedApart | api/merge-batch.js:68-69 | sorting keeps the uploads apart from this run's outputs |
| BatchMerge.PairTargets | api/merge-batch.js:95-96 | a pair tracks each of its upload paths that is present |
| BatchMerge.TrackPair | api/merge-batch.js:95-96 | the two pushes append the pair's present paths |
| BatchMerge.SourceTargets | api/merge-batch.js:91-96 | `cleanupTargets` after pairs 0..n-1: each pair's present paths appended in pair order |
| BatchMerge.SourceTargetsTracked | api/merge-batch.js:91-96 | after n pairs, exactly their present upload paths are tracked |
| BatchMerge.BaseNames | api/merge-batch.js:111-113 | one slash-free base name per pair |
| BatchMerge.BaseNamesAt | api/merge-batch.js:111-113 | pair k's base name comes from order k and index k |
| BatchMerge.ChooseName | api/merge-batch.js:111-123 | the download name is pair i's base name resolved against the names used so far |
| BatchMerge.NamesStep | api/merge-batch.js:123 | `usedNames` grows by the chosen name |
| BatchMerge.DownloadNames | api/merge-batch.js:111-123 | the names of the first n pairs, one per pair, each its base name resolved against the names before it |
| BatchMerge.DownloadNamesPrefix | api/merge-batch.js:91-123 | later pairs do not change earlier names |
| BatchMerge.DownloadNamesDistinct | api/merge-batch.js:115-123 | the names in one archive are pairwise distinct |
| BatchMerge.DownloadNameOf | api/merge-batch.js:115-123 | pair k's name is its base name resolved against the names of pairs 0..k-1 |
| BatchMerge.Created | api/merge-batch.js:128 | `created` holds, per pair, its merged path and download name |
| BatchMerge.CreatedStep | api/merge-batch.js:128 | one push per merged pair |
| BatchMerge.CreatedTargets | api/merge-batch.js:153 | unlinking `created` removes exactly the merged paths |
| BatchMerge.FirstFailure | api/merge-batch.js:100-101 | the first pair that does not merge, every pair before it merging |
| BatchMerge.FirstFailureAt | api/merge-batch.js:91-101 | a failing pair after merging ones is the first failure |
| BatchMerge.Outputs | api/merge-batch.js:125-127 | the disk after pairs 0..n-1 are written: each merged path holds its pair's saved document |
| BatchMerge.OutputsElsewhere | api/merge-batch.js:127 | the writes change no path except the merged ones |
| BatchMerge.OutputsAt | api/merge-batch.js:125-127 | pair k's file holds pair k's document |
| BatchMerge.OutputsStep | api/merge-batch.js:127 | writing pair i adds its file |
| BatchMerge.OutputsKeepSources | api/merge-batch.js:100-101 | earlier writes do not change what a later pair reads |
| BatchMerge.OutputsCleaned | api/merge-batch.js:153 | unlinking the merged paths undoes the writes |
| BatchMerge.CreatedWritten | api/merge-batch.js:125-128 | every created entry's file exists and holds its pair's document |
| BatchMerge.Archived | api/merge-batch.js:131-134 | the archive's members: pair k's document under pair k's download name, in pair order |
| BatchMerge.ZipOfOutputs | api/merge-batch.js:131-134 | no entry is missing, and the archive is every pair's document under its name, in pair order |
| BatchMerge.RecordPair | api/merge-batch.js:111-128 | the name is chosen and recorded, the entry is pushed and the file is written |
| BatchMerge.VisitedStep | api/merge-batch.js:91-129 | one merged pair keeps the loop state exact |
| BatchMerge.VisitedStop | api/merge-batch.js:100-101 | a failing pair ends the loop with the failure outcome |
| BatchMerge.VisitedAll | api/merge-batch.js:91-129 | the loop ends with every pair written |
| BatchMerge.MergeOutcome | api/merge-batch.js:91-129 | the state the loop leaves: with a failing pair, the first one fails, its uploads are tracked and only the pairs before it are written; otherwise every pair is written and named |
| BatchMerge.MergeAll | api/merge-batch.js:91-129 | after the loop, the entries, tracked paths, failure and disk are as the first failure, or its absence, determines |
| BatchMerge.Footprint | api/merge-batch.js:152-154 | the paths one cleanup unlinks: the tracked uploads, the created files and the zip path, none when empty |
| BatchMerge.Cleanup | api/merge-batch.js:152-154 | exactly the tracked uploads, the created files and the zip path are unlinked |
| BatchMerge.RunFootprint | api/merge-batch.js:141-154 | the footprint with `tracked` pairs visited, `merged` pairs written and the zip path assigned or not |
| BatchMerge.RunFootprintMembers | api/merge-batch.js:141-154 | cleanup removes the present uploads of the visited pairs, the merged files of the written pairs and, once assigned, the zip, and nothing else |
| BatchMerge.FailureCleanup | api/merge-batch.js:151-155 | after a failed pair, the disk is as before the run, less the run's footprint |
| BatchMerge.ArchiveCleanup | api/merge-batch.js:141-149 | after archiving, the disk is as before the run, less the footprint, and a second cleanup changes nothing |
| BatchMerge.ArchiveAndRespond | api/merge-batch.js:131-155 | the answer is the archive or the 500 answer whose detail is the archive's rejection message, and the disk is as before less the footprint |
| BatchMerge.RunOutcome | api/merge-batch.js:84-156 | the answer and disk after a validated run: with a failing pair, the 500 answer for the first one and the disk less the uploads up to it and the files merged before it; otherwise the download of the archive, or the 500 answer with its rejection message, and the disk less the uploads, the merged files and the zip |
| BatchMerge.RunPairs | api/merge-batch.js:84-156 | a failed pair gives 500 and removes the files up to it; otherwise the archive is answered and uploads, outputs and zip are removed |
| BatchMerge.ArtifactPathsApart | api/merge-batch.js:125-132 | no merged file is the zip |
| BatchMerge.ZipWriteCleaned | api/merge-batch.js:134-148 | writing the zip leaves no trace once its path is unlinked |
| BatchMerge.HandleBatch | api/merge-batch.js:67-157 | wrong counts give the 400 answer and remove every upload; otherwise the run outcome on the sorted lists |
| BatchDrop.IsPdfFile | public/app.js:199 | a file is a PDF when its MIME type is `application/pdf` or its name passes `/\.pdf$/i` |
| BatchDrop.PdfsOnly | public/app.js:199 | the kept files are exactly the dropped PDFs |
| BatchDrop.PdfsOnlyAppend | public/app.js:199 | filtering a list split into two parts is filtering each part, the first part's files first, so the filter keeps the drop order |
| BatchDrop.PdfsOnlyKeepsPdfs | public/app.js:199 | a drop of PDFs only is kept whole |
| BatchDrop.NamesInvoice | public/app.js:205 | the lower-cased name contains "fact" |
| BatchDrop.NamesOrder | public/app.js:206 | the lower-cased name contains "oc" or "orden" |
| BatchDrop.Route | public/app.js:204-209 | "fact" sends a file to the invoices, then "oc" or "orden" to the orders, and otherwise it goes to the list that is not longer, orders on a tie |
| BatchDrop.Pick | public/app.js:203-210 | a list never has more files than the drop |
| BatchDrop.PickAppend | public/app.js:203-210 | picking from a list split into two parts picks from each part, the first part's files first |
| BatchDrop.PickedAt | public/app.js:203-210 | the positions sent to a side: strictly increasing, each sent to that side, and every such position included |
| BatchDrop.PickInDropOrder | public/app.js:203-210 | a list is exactly the drop's files at those positions, in drop order |
| BatchDrop.Sides | public/app.js:203-210 | one side per file, each routed on the list lengths before it |
| BatchDrop.OrderList | public/app.js:203-210 | `oc`: the files routed to the orders, in drop order |
| BatchDrop.InvoiceList | public/app.js:203-210 | `fac`: the files routed to the invoices, in drop order |
| BatchDrop.Classify | public/app.js:201-210 | the loop builds exactly the order and invoice lists |
| BatchDrop.PickPartition | public/app.js:203-210 | every file lands in exactly one list |
| BatchDrop.ClassifyPartition | public/app.js:201-210 | the two lists split the drop as a multiset |
| BatchDrop.SidesPrefix | public/app.js:203-210 | a file's side depends only on the files dropped before it |
| BatchDrop.SideOf | public/app.js:203-210 | file k takes the route given by the list lengths before it |
| BatchDrop.KeywordRouting | public/app.js:205-206 | "fact" wins over "oc" and "orden" |
| BatchDrop.UnmatchedAlternate | public/app.js:207-209 | files with no keyword alternate, orders first: ceil(n/2) orders and floor(n/2) invoices |
| BatchDrop.UnmatchedBalanced | public/app.js:208 | the lists then differ by at most one file, orders first |
| BatchDrop.MissingLetter | public/app.js:205 | a word with a letter the name lacks does not match |
| BatchDrop.DocCountsAsOrder | public/app.js:206 | "doc.pdf" counts as an order ("oc" matches inside "doc") |
| BatchDrop.FactWinsOverOrden | public/app.js:205-206 | "Factura_orden.pdf" names both sides |
| BatchDrop.SubmitError | public/app.js:221-227 | the form submits exactly when both lists are non-empty and equally long |
| BatchDrop.SubmitCheckAgreesWithServer | public/app.js:218-228 | the page accepts exactly what the server accepts, and shows the same counts on a mismatch |
| BatchDrop.BatchForm.Drop | public/app.js:196-212 | each input is replaced by its classified list only when that list is non-empty; when both lists are non-empty, the inputs split the kept PDFs as a multiset |
| BatchDrop.BatchForm.CheckBeforeSubmit | public/app.js:218-228 | the click handler's message is the submission check, and sending implies valid lists |
| BatchDrop.DropSplitsKeptFiles | public/app.js:199-212 | the two classified lists split the kept PDFs as a multiset, and every order is a dropped PDF |
| BatchDrop.StripPdf | public/app.js:57 | one trailing ".pdf", in any case, is removed, and only then |
| BatchDrop.StripPdfOfAppended | public/app.js:57 | stripping undoes appending ".pdf" |
| BatchDrop.StripPdfOnce | public/app.js:57 | "a.pdf.pdf" loses only one extension |
| BatchDrop.CompressedName | public/app.js:57 | one trailing ".pdf", in any case, removed, then `-compressed.pdf` appended |
| BatchDrop.WordName | public/app.js:98 | one trailing ".pdf", in any case, removed, then `.docx` appended |
| BatchDrop.CompressedNameOfPdf | public/app.js:57 | `x.pdf` and `x.PDF` download as `x-compressed.pdf` |
| BatchDrop.CompressedNameIsPdf | public/app.js:57 | the compressed name is a PDF name, and compressing it again adds one more "-compressed" |
| BatchDrop.WordNameOfPdf | public/app.js:98 | `x.pdf` and `x.PDF` download as `x.docx` |
| BatchDrop.WordNameIsNotPdf | public/app.js:98 | the Word name never ends in ".pdf" |

## Left out

- Collation: `localeCompare(..., 'es', { numeric: true })` is an abstract `leq`. The lemmas assume only that it is a total preorder.
- `Array.prototype.sort` is modelled as a stable insertion sort. The engine's algorithm is not modelled; stability is what the language guarantees.
- `Number(...)` and `Number.isFinite` are exact real values. A key too large for a double becoming `Infinity` (and so NaN) is not modelled.
- `toLowerCase` maps only ASCII letters.
- `trim` covers the ECMAScript whitespace and line terminator characters listed in `Naming.IsTrimmable`.
- `path.join` is modelled as `dir + "/" + name`. Normalisation of `dir` is not modelled.
- `path.extname` and `path.basename` are modelled only for names without '/'. Base names never contain one after the separator replacement.
- File writes never fail. An unlink of a path that is present always succeeds. Other filesystem errors are not modelled.
- `Promise.all` over the unlinks runs them one after the other. The result is the same in any order; `FileStore.WithoutUnion` proves this.
- `Date.now()` is the parameter `runId`. Concurrent requests with the same `runId` are not modelled, and `FileStore.Disk` is owned by one request.
- The uploads are assumed not to be paths this run writes (`BatchMerge.UploadsApart`). The upload layer is not part of this model.
- The Python `zipfile` script is the abstract `pack`. Compression, the archive format and a failure writing the archive are not modelled. A missing entry gives exit code 1 with the archive written so far.
- A spawn failure's message comes from the operating system and is not modelled; `Archive.ZipMessage` returns None for it.
- The 500 detail of a failed pair is the message of the filesystem or the PDF library, which is not modelled; that answer carries the `MergeFailure` and no detail.
- The PDF library is abstract: `parse` either gives the pages or fails, and `serialize` is a function. Documents with zero pages are accepted, as in the code.
- The response stream is modelled as one body. A partial transfer and the client disconnecting are not modelled, except for the extra cleanup of the stream's `error` listener (`streamError`).
- HTTP framework wiring, the upload middleware and the `maxCount` limits (lines 12-15) are not part of this model.
- The DOM, `DataTransfer`, `fetch`, the messages' styling and the null checks on page elements are not modelled. The inputs are the `BatchDrop.BatchForm` fields.
- `BatchDrop.BatchForm.CheckBeforeSubmit` stops at the checks; the upload request it then sends is not modelled.
- `BatchDrop.CompressedNameOfPdf` and `BatchDrop.WordNameOfPdf` state only the all-lower and all-upper spellings of the extension; `BatchDrop.StripPdf` covers every mix of cases.
