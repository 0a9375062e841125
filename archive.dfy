/** createZip (api/merge-batch.js lines 37-60): a zip archive of the merged files, each
    stored under its download name, in list order. */
module Archive {
  import opened Wrappers
  import opened Text
  import opened FileStore

  /** One element of `created`: where the merged file is and the name it gets in the
      archive. */
  datatype Artifact = Artifact(path: string, name: string)

  /** One member of the archive: its name and the bytes stored under it. */
  datatype ZipMember = ZipMember(name: string, data: Bytes)

  /** Why createZip rejects: an empty list, the subprocess failing to start, or the script
      ending with a non-zero exit code (1 when it raises FileNotFoundError). */
  datatype ZipFailure = NothingToZip | SpawnFailed | ExitCode(code: nat)

  /** The message of the rejection; a spawn failure carries the operating system's
      message, which is not modelled. */
  function ZipMessage(f: ZipFailure): (m: Option<string>)
    ensures f.NothingToZip? ==> m == Some("Nada que comprimir")
    ensures f.SpawnFailed? <==> m.None?
    ensures f.ExitCode? ==> m == Some("zipfile exit " + NatToString(f.code))
  {
    match f
    case NothingToZip => Some("Nada que comprimir")
    case SpawnFailed => None
    case ExitCode(c) => Some("zipfile exit " + NatToString(c))
  }

  /** The index of the first entry whose file does not exist. */
  function FirstMissing(files: map<string, Bytes>, entries: seq<Artifact>): (k: Option<nat>)
    ensures k.None? <==> forall j :: 0 <= j < |entries| ==> entries[j].path in files
    ensures k.Some? ==> k.value < |entries| && entries[k.value].path !in files
    ensures k.Some? ==> forall j :: 0 <= j < k.value ==> entries[j].path in files
  {
    if entries == [] then None
    else if entries[0].path !in files then Some(0)
    else
      match FirstMissing(files, entries[1..])
      case None => None
      case Some(k) => Some(k + 1)
  }

  /** The members the script writes for `entries`, whose files all exist. */
  function Members(files: map<string, Bytes>, entries: seq<Artifact>): (ms: seq<ZipMember>)
    requires forall j :: 0 <= j < |entries| ==> entries[j].path in files
    ensures |ms| == |entries|
    ensures forall j :: 0 <= j < |entries| ==> ms[j] == ZipMember(entries[j].name, files[entries[j].path])
  {
    seq(|entries|, j requires 0 <= j < |entries| => ZipMember(entries[j].name, files[entries[j].path]))
  }

  /** The outcome of createZip. */
  datatype ZipOutcome = Zipped | ZipFailed(reason: ZipFailure)

  /** createZip(entries, dest). `pack` is the zip format, `spawnOk` whether the python3
      subprocess starts. The script opens `dest` first and adds the entries one by one; on a
      missing file it raises, the archive is closed with the members written so far, and
      the exit code is 1. */
  method CreateZip(disk: Disk, pack: seq<ZipMember> -> Bytes, entries: seq<Artifact>, dest: string, spawnOk: bool)
      returns (outcome: ZipOutcome)
    requires forall j :: 0 <= j < |entries| ==> entries[j].path != dest
    modifies disk
    ensures entries == [] ==> outcome == ZipFailed(NothingToZip) && disk.files == old(disk.files)
    ensures entries != [] && !spawnOk ==> outcome == ZipFailed(SpawnFailed) && disk.files == old(disk.files)
    ensures entries != [] && spawnOk && FirstMissing(old(disk.files), entries).Some? ==>
              var k := FirstMissing(old(disk.files), entries).value;
              && outcome == ZipFailed(ExitCode(1))
              && disk.files == old(disk.files)[dest := pack(Members(old(disk.files), entries[..k]))]
    ensures entries != [] && spawnOk && FirstMissing(old(disk.files), entries).None? ==>
              && outcome == Zipped
              && disk.files == old(disk.files)[dest := pack(Members(old(disk.files), entries))]
  {
    if entries == [] {
      return ZipFailed(NothingToZip);
    }
    if !spawnOk {
      return ZipFailed(SpawnFailed);
    }
    ghost var before := disk.files;
    var written: seq<ZipMember> := [];
    disk.Write(dest, pack(written));
    var i := 0;
    while i < |entries| && entries[i].path in disk.files
      invariant 0 <= i <= |entries|
      invariant forall j :: 0 <= j < i ==> entries[j].path in before
      invariant written == Members(before, entries[..i])
      invariant disk.files == before[dest := pack(written)]
    {
      written := written + [ZipMember(entries[i].name, disk.files[entries[i].path])];
      i := i + 1;
      disk.Write(dest, pack(written));
    }
    if i < |entries| {
      assert FirstMissing(before, entries) == Some(i);
      outcome := ZipFailed(ExitCode(1));
    } else {
      assert entries[..i] == entries;
      outcome := Zipped;
    }
  }

  /** A successful archive holds one member per entry, in list order, each under the
      entry's name with the contents of the entry's file. */
  lemma ArchiveKeepsOrderAndNames(files: map<string, Bytes>, entries: seq<Artifact>, j: nat)
    requires FirstMissing(files, entries).None? && j < |entries|
    ensures |Members(files, entries)| == |entries|
    ensures Members(files, entries)[j].name == entries[j].name
    ensures Members(files, entries)[j].data == files[entries[j].path]
  {
  }

  /** A prefix of the entries gives the corresponding prefix of the members. */
  lemma MembersPrefix(files: map<string, Bytes>, entries: seq<Artifact>, k: nat)
    requires forall j :: 0 <= j < |entries| ==> entries[j].path in files
    requires k <= |entries|
    ensures Members(files, entries[..k]) == Members(files, entries)[..k]
  {
  }
}
