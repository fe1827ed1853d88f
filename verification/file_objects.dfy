/** File and Directory entries (lazypp/file_objects.py): the check that a
    destination stays inside its base directory, the entry constructor,
    copying into a directory, and storing an entry under its content
    digest. The file system is a finite map from paths to contents; a
    directory is one entry of that map. */
module FileObjects {
  import opened Objects

  const Parent := Lit("..")
  const Current := Lit(".")
  /** The first part of an absolute path, as pathlib's `parts` reports it. */
  const Root := Lit("/")

  predicate IsAbsolute(p: Path)
  {
    p != [] && p[0] == Root
  }

  /** pathlib's `base / p`: an absolute right-hand side replaces the base. */
  function Join(base: Path, p: Path): (r: Path)
    ensures IsAbsolute(p) ==> r == p
    ensures !IsAbsolute(p) ==> |r| == |base| + |p| && r[..|base|] == base && r[|base|..] == p
  {
    if IsAbsolute(p) then p else base + p
  }

  /** Number of `..` parts. */
  function Ups(parts: Path): nat
  {
    if parts == [] then 0
    else Ups(parts[..|parts| - 1]) + (if parts[|parts| - 1] == Parent then 1 else 0)
  }

  /** Number of parts that descend one level (neither `..` nor `.`). */
  function Downs(parts: Path): nat
  {
    if parts == [] then 0
    else Downs(parts[..|parts| - 1]) + (if parts[|parts| - 1] in {Parent, Current} then 0 else 1)
  }

  /** Some non-empty prefix of the parts climbs more levels than it descends. */
  ghost predicate EscapesBase(parts: Path)
  {
    exists k :: 0 < k <= |parts| && Ups(parts[..k]) > Downs(parts[..k])
  }

  /** `_is_outside_base`: walks the parts keeping a depth counter and
      answers true as soon as the counter goes below zero. */
  method IsOutsideBase(relative: Path) returns (outside: bool)
    ensures outside <==> EscapesBase(relative)
  {
    var depth := 0;
    var i := 0;
    while i < |relative|
      invariant 0 <= i <= |relative|
      invariant depth == Downs(relative[..i]) - Ups(relative[..i])
      invariant forall k :: 0 < k <= i ==> Ups(relative[..k]) <= Downs(relative[..k])
    {
      var part := relative[i];
      assert relative[..i + 1][..i] == relative[..i];
      if part == Parent {
        depth := depth - 1;
      } else if part != Current {
        depth := depth + 1;
      }
      if depth < 0 {
        return true;
      }
      i := i + 1;
    }
    assert relative[..i] == relative;
    return false;
  }

  lemma {:induction false} NoParentHasNoUps(parts: Path)
    requires Parent !in parts
    ensures Ups(parts) == 0
  {
    if parts != [] {
      assert parts[..|parts| - 1] <= parts;
      NoParentHasNoUps(parts[..|parts| - 1]);
    }
  }

  /** A path without `..` parts never leaves its base. */
  lemma NoParentNeverOutside(parts: Path)
    requires Parent !in parts
    ensures !EscapesBase(parts)
  {
    forall k | 0 < k <= |parts|
      ensures Ups(parts[..k]) == 0
    {
      assert parts[..k] <= parts;
      NoParentHasNoUps(parts[..k]);
    }
  }

  /** Once a path has left its base, appending parts cannot bring it back. */
  lemma EscapeIsDecidedByPrefix(parts: Path, more: Path)
    requires EscapesBase(parts)
    ensures EscapesBase(parts + more)
  {
    var k :| 0 < k <= |parts| && Ups(parts[..k]) > Downs(parts[..k]);
    assert (parts + more)[..k] == parts[..k];
  }

  /** Inserting a `.` part leaves the counts of every longer prefix as they were. */
  lemma {:induction false} CurrentPartCounts(a: Path, c: Path)
    ensures Ups(a + [Current] + c) == Ups(a + c) && Downs(a + [Current] + c) == Downs(a + c)
    decreases |c|
  {
    if c == [] {
      assert a + [Current] + c == a + [Current];
      assert (a + [Current])[..|a|] == a;
      assert a + c == a;
    } else {
      var c' := c[..|c| - 1];
      assert (a + [Current] + c)[..|a| + 1 + |c'|] == a + [Current] + c';
      assert (a + c)[..|a| + |c'|] == a + c';
      CurrentPartCounts(a, c');
    }
  }

  /** The prefixes of a path with an inserted `.` part, against those of
      the path without it. */
  lemma PrefixesAroundCurrent(a: Path, b: Path, m: nat)
    requires m <= |b|
    ensures (a + [Current] + b)[..|a| + 1 + m] == a + [Current] + b[..m]
    ensures (a + b)[..|a| + m] == a + b[..m]
    ensures Ups((a + [Current] + b)[..|a| + 1 + m]) == Ups((a + b)[..|a| + m])
    ensures Downs((a + [Current] + b)[..|a| + 1 + m]) == Downs((a + b)[..|a| + m])
  {
    CurrentPartCounts(a, b[..m]);
  }

  lemma EscapeSurvivesCurrent(a: Path, b: Path)
    requires EscapesBase(a + b)
    ensures EscapesBase(a + [Current] + b)
  {
    var with := a + [Current] + b;
    var without := a + b;
    var k :| 0 < k <= |without| && Ups(without[..k]) > Downs(without[..k]);
    if k <= |a| {
      assert with[..k] == without[..k];
    } else {
      PrefixesAroundCurrent(a, b, k - |a|);
      assert Ups(with[..k + 1]) > Downs(with[..k + 1]);
    }
  }

  lemma EscapeNeedsNoCurrent(a: Path, b: Path)
    requires EscapesBase(a + [Current] + b)
    ensures EscapesBase(a + b)
  {
    var with := a + [Current] + b;
    var without := a + b;
    var k :| 0 < k <= |with| && Ups(with[..k]) > Downs(with[..k]);
    if k <= |a| {
      assert with[..k] == without[..k];
    } else {
      PrefixesAroundCurrent(a, b, k - |a| - 1);
      assert Ups(without[..k - 1]) > Downs(without[..k - 1]);
    }
  }

  /** A `.` part, wherever it stands, never changes whether a path leaves
      its base. */
  lemma CurrentPartIsNeutral(a: Path, b: Path)
    ensures EscapesBase(a + [Current] + b) <==> EscapesBase(a + b)
  {
    if EscapesBase(a + b) {
      EscapeSurvivesCurrent(a, b);
    }
    if EscapesBase(a + [Current] + b) {
      EscapeNeedsNoCurrent(a, b);
    }
  }

  /** The check lets through an absolute destination without `..` parts,
      yet joining it to any base answers the destination itself, whatever
      the base; below a relative base it never lands. */
  lemma AbsoluteDestinationIgnoresBase(base: Path, dest: Path)
    requires IsAbsolute(dest) && Parent !in dest
    ensures !EscapesBase(dest) && Join(base, dest) == dest
    ensures base != [] && !IsAbsolute(base) ==> !(|base| <= |Join(base, dest)| && Join(base, dest)[..|base|] == base)
  {
    NoParentNeverOutside(dest);
  }

  /** `_md5_hash`: a File is read from its source path and a missing file
      raises; `os.walk` over a missing directory yields nothing, so a
      missing Directory digests the empty byte string. */
  function EntryDigest(e: EntryFields, files: FileMap): (r: Result<Digest>)
    ensures r.Err? <==> e.kind == File && e.src !in files
    ensures r.Err? ==> r.error == FileNotFoundError
    ensures r.Ok? && e.src in files ==> r.value == ContentDigest(files[e.src])
    ensures r.Ok? && e.src !in files ==> r.value == ContentDigest(Bytes([]))
  {
    if e.src in files then Ok(ContentDigest(files[e.src]))
    else if e.kind == File then Err(FileNotFoundError)
    else Ok(ContentDigest(Bytes([])))
  }

  /** The effect of `copy` on the file map: a present target is an error
      unless `overwrite` is set, in which case it is removed first; then the
      source is copied onto the target. */
  function CopyResult(files: FileMap, src: Path, target: Path, overwrite: bool): (r: (Outcome, FileMap))
    ensures r.0.Pass? <==> (overwrite || target !in files) && src in files && src != target
    ensures r.0 == Fail(FileExistsError) <==> target in files && !overwrite
    ensures r.0 == Fail(FileExistsError) ==> r.1 == files
    ensures r.0.Pass? ==> target in r.1 && r.1[target] == files[src]
    ensures forall p :: p != target ==> (p in r.1 <==> p in files)
    ensures forall p :: p != target && p in files ==> r.1[p] == files[p]
  {
    if target in files && !overwrite then (Fail(FileExistsError), files)
    else
      var cleared := files - {target};
      if src !in cleared then (Fail(FileNotFoundError), cleared)
      else (Pass, cleared[target := cleared[src]])
  }

  class FileSystem {
    var files: FileMap

    constructor (files: FileMap)
      ensures this.files == files
    {
      this.files := files;
    }
  }

  /** A File or Directory object. */
  class Entry {
    const kind: EntryKind
    var copy: bool
    var dest: Path
    var src: Path

    constructor Init(kind: EntryKind, copy: bool, dest: Path, src: Path)
      ensures this.kind == kind && this.copy == copy && this.dest == dest && this.src == src
    {
      this.kind := kind;
      this.copy := copy;
      this.dest := dest;
      this.src := src;
    }

    function Fields(): EntryFields
      reads this
    {
      EntryFields(kind, copy, dest, src)
    }

    /** The `path` property. It tests `_dest_path` for truth, and a pathlib
        path is always true, so it always answers the destination. */
    function EffectivePath(): (p: Path)
      reads this
      ensures p == dest
    {
      dest
    }

    /** `copy`: copies the entry to `target / path`. */
    method Copy(fs: FileSystem, target: Path, overwrite: bool) returns (o: Outcome)
      modifies fs
      ensures (o, fs.files) == CopyResult(old(fs.files), src, Join(target, dest), overwrite)
    {
      var to := Join(target, EffectivePath());
      assert to !in fs.files ==> fs.files - {to} == fs.files;
      if to in fs.files {
        if !overwrite {
          return Fail(FileExistsError);
        }
        fs.files := fs.files - {to};
      }
      if src !in fs.files {
        return Fail(FileNotFoundError);
      }
      fs.files := fs.files[to := fs.files[src]];
      return Pass;
    }

    /** `_copy_to_dest`: copies into the work directory, without
        overwriting, only when the copy flag is set. */
    method CopyToDest(fs: FileSystem, workDir: Path) returns (o: Outcome)
      modifies fs
      ensures copy ==> (o, fs.files) == CopyResult(old(fs.files), src, Join(workDir, dest), false)
      ensures !copy ==> o == Pass && fs.files == old(fs.files)
    {
      o := Pass;
      if copy {
        o := Copy(fs, workDir, false);
      }
    }

    /** `_cache(work_dir, cache_dir)`: names the cache copy after the digest
        of the SOURCE content, copies the work-directory file `work_dir /
        dest` there, points the source at the copy and pickles the entry to
        `cache_dir / "data"`. A File copy overwrites an existing target but
        not its own source; a Directory copy refuses an existing target. */
    method Cache(fs: FileSystem, workDir: Path, cacheDir: Path) returns (o: Outcome)
      modifies this, fs
      ensures copy == old(copy) && dest == old(dest)
      ensures o.Pass? <==>
        EntryDigest(old(Fields()), old(fs.files)).Ok? &&
        Join(workDir, dest) in old(fs.files) &&
        (kind == File ==> Join(workDir, dest) != cacheDir + [Hex(EntryDigest(old(Fields()), old(fs.files)).value)]) &&
        (kind == Directory ==> cacheDir + [Hex(EntryDigest(old(Fields()), old(fs.files)).value)] !in old(fs.files))
      ensures o.Pass? ==>
        var stored := cacheDir + [Hex(EntryDigest(old(Fields()), old(fs.files)).value)];
        src == stored &&
        fs.files == old(fs.files)[stored := old(fs.files)[Join(workDir, dest)]]
                                 [cacheDir + [Lit("data")] := Pickled(EntryRef(Fields()))]
      ensures o.Fail? ==> src == old(src) && fs.files == old(fs.files)
    {
      var digest := EntryDigest(Fields(), fs.files);
      if digest.Err? {
        return Fail(digest.error);
      }
      var stored := cacheDir + [Hex(digest.value)];
      var from := Join(workDir, dest);
      if from !in fs.files {
        return Fail(FileNotFoundError);
      }
      if kind == File && from == stored {
        return Fail(SameFileError);
      }
      if kind == Directory && stored in fs.files {
        return Fail(FileExistsError);
      }
      fs.files := fs.files[stored := fs.files[from]];
      src := stored;
      fs.files := fs.files[cacheDir + [Lit("data")] := Pickled(EntryRef(Fields()))];
      return Pass;
    }
  }

  /** Caching an entry and later copying it out of the cache into `target`
      reproduces the content the entry had in the work directory. */
  method CacheThenCopy(e: Entry, fs: FileSystem, workDir: Path, cacheDir: Path, target: Path) returns (o: Outcome)
    modifies e, fs
    ensures o.Pass? ==>
      Join(workDir, e.dest) in old(fs.files) &&
      Join(target, e.dest) in fs.files && fs.files[Join(target, e.dest)] == old(fs.files)[Join(workDir, e.dest)]
  {
    o := e.Cache(fs, workDir, cacheDir);
    if o.Fail? {
      return;
    }
    var data := cacheDir + [Lit("data")];
    assert e.src[|cacheDir|] != data[|cacheDir|];
    o := e.Copy(fs, target, true);
  }

  /** The BaseEntry constructor: giving `dest` forces the copy flag on; the
      destination is `dest`, or `path` when there is none; the source is
      `path` resolved (`resolved`, since resolution depends on the working
      directory). A destination that leaves the base raises ValueError. */
  method NewEntry(kind: EntryKind, path: Path, copy: bool, dest: Option<Path>, resolved: Path)
    returns (r: Result<Entry>)
    ensures r.Err? <==> EscapesBase(if dest.Some? then dest.value else path)
    ensures r.Err? ==> r.error == ValueError
    ensures r.Ok? ==> fresh(r.value) && r.value.kind == kind && r.value.src == resolved
    ensures r.Ok? && dest.Some? ==> r.value.copy && r.value.dest == dest.value
    ensures r.Ok? && dest.None? ==> r.value.copy == copy && r.value.dest == path
  {
    var flag := if dest.Some? then true else copy;
    var destPath := if dest.Some? then dest.value else path;
    var e := new Entry.Init(kind, flag, destPath, resolved);
    var outside := IsOutsideBase(destPath);
    if outside {
      return Err(ValueError);
    }
    return Ok(e);
  }
}
