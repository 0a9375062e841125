/** The upload directory as the handler sees it: a map from path to contents. */
module FileStore {
  import opened Text

  /** The paths a list of `safeUnlink` calls removes: the empty string stands for a missing
      path and is skipped. */
  function Targets(paths: seq<string>): (t: set<string>)
    ensures forall p :: p in t <==> p in paths && p != ""
  {
    set p | p in paths && p != ""
  }

  /** `files` once every path of `gone` has been unlinked. */
  function Without(files: map<string, Bytes>, gone: set<string>): (r: map<string, Bytes>)
    ensures r.Keys == files.Keys - gone
    ensures forall p :: p in r ==> r[p] == files[p]
  {
    map p | p in files && p !in gone :: files[p]
  }

  /** Unlinking is idempotent: a second cleanup finds nothing left to remove. */
  lemma WithoutIdempotent(files: map<string, Bytes>, gone: set<string>)
    ensures Without(Without(files, gone), gone) == Without(files, gone)
  {
  }

  /** The order in which paths are unlinked does not matter. */
  lemma WithoutUnion(files: map<string, Bytes>, a: set<string>, b: set<string>)
    ensures Without(Without(files, a), b) == Without(files, a + b)
    ensures Without(Without(files, a), b) == Without(Without(files, b), a)
  {
  }

  /** One `safeUnlink` removes its path, or nothing for a missing one. */
  lemma TargetsOfOne(p: string)
    ensures Targets([p]) == if p == "" then {} else {p}
  {
  }

  /** Unlinking the targets of a list, one after the other. */
  lemma TargetsAppend(paths: seq<string>, p: string)
    ensures Targets(paths + [p]) == Targets(paths) + Targets([p])
  {
  }

  class Disk {
    var files: map<string, Bytes>

    constructor (initial: map<string, Bytes>)
      ensures files == initial
    {
      files := initial;
    }

    /** `fsp.writeFile(path, bytes)`; writes are assumed to succeed. */
    method Write(path: string, data: Bytes)
      modifies this
      ensures files == old(files)[path := data]
    {
      files := files[path := data];
    }

    /** `safeUnlink(path)`: a missing path is skipped, and unlinking a path that does not
        exist changes nothing instead of failing. */
    method SafeUnlink(path: string)
      modifies this
      ensures files == Without(old(files), Targets([path]))
    {
      if path == "" {
        return;
      }
      if path in files {
        files := files - {path};
      }
    }
  }

  /** `Promise.all(paths.map(safeUnlink))`, run one path after the other. */
  method UnlinkAll(disk: Disk, paths: seq<string>)
    modifies disk
    ensures disk.files == Without(old(disk.files), Targets(paths))
  {
    for i := 0 to |paths|
      invariant disk.files == Without(old(disk.files), Targets(paths[..i]))
    {
      disk.SafeUnlink(paths[i]);
      assert paths[..i + 1] == paths[..i] + [paths[i]];
      TargetsAppend(paths[..i], paths[i]);
      WithoutUnion(old(disk.files), Targets(paths[..i]), Targets([paths[i]]));
    }
    assert paths[..|paths|] == paths;
  }
}
