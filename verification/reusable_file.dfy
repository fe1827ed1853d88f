/** `ReusableFile` (lazypp/reusable_file_objects.py): a file shared between
    tasks through a cache directory, named after a digest of its id and of
    the hashes of the tasks it depends on. Entering materialises a cached
    copy, or takes an inter-process lock so that exactly one user produces
    the file; leaving publishes the file and releases the lock. The lock is
    the boolean `lockHeld`; what other processes did to the disk while this
    one waited for the lock is the parameter `afterAcquire`. The disk keeps
    hard links apart from copies: a path names an inode, and a hard link is
    a second path naming the same one. */
module ReusableFiles {
  import opened Objects
  import opened TaskIdentity

  /** Every reusable file lives in this folder of the given cache directory. */
  const CacheFolder := Lit("reusable_files")

  /** The hashes of the dependent tasks, in list order, as hexadecimal
      chunks; the first dependent whose hash fails stops the fold. */
  function DependencyHashes(deps: seq<TaskSpec>, files: FileMap, canPickle: Value -> bool): (r: Result<seq<Name>>)
    ensures r.Ok? ==> |r.value| == |deps|
    ensures r.Err? ==> r.error == ValueError || r.error == FileNotFoundError
  {
    if deps == [] then Ok([])
    else
      var init :- DependencyHashes(deps[..|deps| - 1], files, canPickle);
      var h :- Hash(deps[|deps| - 1], files, canPickle);
      Ok(init + [Hex(h)])
  }

  /** The `hash` property: the digest of the stream made of the id followed
      by each dependent's hash. */
  function StreamHash(id: string, deps: seq<TaskSpec>, files: FileMap, canPickle: Value -> bool): (r: Result<Digest>)
    ensures deps == [] ==> r == Ok(StreamDigest([Lit(id)]))
    ensures r.Ok? ==> r.value.StreamDigest? && |r.value.stream| == |deps| + 1 && r.value.stream[0] == Lit(id)
    ensures r.Err? ==> r.error == ValueError || r.error == FileNotFoundError
  {
    var hs :- DependencyHashes(deps, files, canPickle);
    assert deps == [] ==> [Lit(id)] + hs == [Lit(id)];
    Ok(StreamDigest([Lit(id)] + hs))
  }

  /** The fold succeeds exactly when every dependent's hash does, and then
      holds one chunk per dependent, in order. */
  lemma {:induction false} DependencyHashesOkIff(deps: seq<TaskSpec>, files: FileMap, canPickle: Value -> bool)
    ensures DependencyHashes(deps, files, canPickle).Ok? <==>
      forall i :: 0 <= i < |deps| ==> Hash(deps[i], files, canPickle).Ok?
    ensures DependencyHashes(deps, files, canPickle).Ok? ==>
      var hs := DependencyHashes(deps, files, canPickle).value;
      |hs| == |deps| && forall i :: 0 <= i < |deps| ==> hs[i] == Hex(Hash(deps[i], files, canPickle).value)
  {
    if deps != [] {
      var init := deps[..|deps| - 1];
      DependencyHashesOkIff(init, files, canPickle);
      assert forall i :: 0 <= i < |init| ==> init[i] == deps[i];
    }
  }

  /** A dependent whose hash fails makes the reusable file's hash fail with
      the error of the first such dependent. */
  lemma {:induction false} StreamHashFailsAtFirstDependent(id: string, deps: seq<TaskSpec>, j: nat, files: FileMap, canPickle: Value -> bool)
    requires j < |deps| && Hash(deps[j], files, canPickle).Err?
    requires forall i :: 0 <= i < j ==> Hash(deps[i], files, canPickle).Ok?
    ensures StreamHash(id, deps, files, canPickle) == Err(Hash(deps[j], files, canPickle).error)
    decreases |deps|
  {
    var init := deps[..|deps| - 1];
    if j < |init| {
      assert forall i :: 0 <= i <= j ==> init[i] == deps[i];
      StreamHashFailsAtFirstDependent(id, init, j, files, canPickle);
    } else {
      DependencyHashesOkIff(init, files, canPickle);
      assert forall i :: 0 <= i < |init| ==> init[i] == deps[i];
    }
  }

  /** Two reusable files share a cache entry exactly when they have the
      same id and dependents with pairwise equal hashes, in the same order. */
  lemma StreamHashIdentifies(id1: string, deps1: seq<TaskSpec>, id2: string, deps2: seq<TaskSpec>, files: FileMap, canPickle: Value -> bool)
    requires StreamHash(id1, deps1, files, canPickle).Ok? && StreamHash(id2, deps2, files, canPickle).Ok?
    ensures StreamHash(id1, deps1, files, canPickle) == StreamHash(id2, deps2, files, canPickle) <==>
      id1 == id2 && |deps1| == |deps2| &&
      forall i :: 0 <= i < |deps1| ==> Hash(deps1[i], files, canPickle) == Hash(deps2[i], files, canPickle)
  {
    DependencyHashesOkIff(deps1, files, canPickle);
    DependencyHashesOkIff(deps2, files, canPickle);
    var hs1 := DependencyHashes(deps1, files, canPickle).value;
    var hs2 := DependencyHashes(deps2, files, canPickle).value;
    if StreamHash(id1, deps1, files, canPickle) == StreamHash(id2, deps2, files, canPickle) {
      assert ([Lit(id1)] + hs1)[0] == Lit(id1);
      assert ([Lit(id1)] + hs1)[1..] == hs1 && ([Lit(id2)] + hs2)[1..] == hs2;
      forall i | 0 <= i < |deps1|
        ensures Hash(deps1[i], files, canPickle) == Hash(deps2[i], files, canPickle)
      {
        assert hs1[i] == hs2[i];
      }
    }
    if id1 == id2 && |deps1| == |deps2| &&
       forall i :: 0 <= i < |deps1| ==> Hash(deps1[i], files, canPickle) == Hash(deps2[i], files, canPickle) {
      assert hs1 == hs2;
    }
  }

  /** The parent directory of a path. */
  function DirOf(p: Path): Path
  {
    if p == [] then [] else p[..|p| - 1]
  }

  /** A disk that tells hard links from copies: each path is a directory
      entry naming an inode, several entries may name the same inode, and
      writing a file writes its inode. `dirs` are the directories that
      exist; `next` is above every inode number in use. */
  datatype Disk = Disk(links: map<Path, nat>, inodes: map<nat, Content>, dirs: set<Path>, next: nat)
  {
    ghost predicate Valid()
    {
      (forall p :: p in links ==> links[p] in inodes) &&
      (forall i :: i in inodes ==> i < next)
    }

    /** What reading each path gives: the file map the task hashes see. */
    function Files(): (files: FileMap)
      ensures Valid() ==> files.Keys == links.Keys
      ensures forall p :: p in files ==> p in links && links[p] in inodes && files[p] == inodes[links[p]]
    {
      map p | p in links && links[p] in inodes :: inodes[links[p]]
    }

    /** `os.path.samefile`: both paths exist and name the same inode. */
    predicate SameFile(p: Path, q: Path)
    {
      p in links && q in links && links[p] == links[q]
    }
  }

  /** `open(p, "w")` and a write of `c`: an existing file is truncated in
      place, so every path linked to it reads `c` afterwards; a new file
      gets a fresh inode; a missing parent directory raises
      FileNotFoundError. */
  function WriteFile(d: Disk, p: Path, c: Content): (r: (Outcome, Disk))
    requires d.Valid()
    ensures r.1.Valid() && r.1.dirs == d.dirs
    ensures r.0.Fail? <==> p !in d.links && DirOf(p) !in d.dirs
    ensures r.0.Fail? ==> r == (Fail(FileNotFoundError), d)
    ensures r.0.Pass? ==> r.1.Files().Keys == d.Files().Keys + {p}
    ensures r.0.Pass? ==> forall q :: q in r.1.Files() ==>
      r.1.Files()[q] == if q == p || d.SameFile(q, p) then c else d.Files()[q]
    ensures r.0.Pass? ==> forall q, q' :: d.SameFile(q, q') ==> r.1.SameFile(q, q')
  {
    if p in d.links then (Pass, d.(inodes := d.inodes[d.links[p] := c]))
    else if DirOf(p) !in d.dirs then (Fail(FileNotFoundError), d)
    else (Pass, Disk(d.links[p := d.next], d.inodes[d.next := c], d.dirs, d.next + 1))
  }

  /** `shutil.copy(src, dst)`: copying a file onto itself, or onto a hard
      link to it, raises SameFileError; a missing source raises
      FileNotFoundError; otherwise the destination is opened for writing
      (see WriteFile) and receives the source's content. Failures change
      nothing. */
  function ShutilCopy(d: Disk, src: Path, dst: Path): (r: (Outcome, Disk))
    requires d.Valid()
    ensures r.1.Valid() && r.1.dirs == d.dirs
    ensures r.0 == Fail(SameFileError) <==> d.SameFile(src, dst)
    ensures src !in d.links ==> r.0 == Fail(FileNotFoundError)
    ensures r.0.Pass? <==> src in d.links && !d.SameFile(src, dst) && (dst in d.links || DirOf(dst) in d.dirs)
    ensures r.0.Fail? ==> r.1 == d
    ensures r.0.Pass? ==> dst in r.1.Files() && r.1.Files()[dst] == d.Files()[src]
    ensures r.0.Pass? ==> src in r.1.Files() && r.1.Files()[src] == d.Files()[src]
    ensures r.0.Pass? ==> forall q :: q in d.Files() && q != dst && !d.SameFile(q, dst) ==>
      q in r.1.Files() && r.1.Files()[q] == d.Files()[q]
  {
    if d.SameFile(src, dst) then (Fail(SameFileError), d)
    else if src !in d.links then (Fail(FileNotFoundError), d)
    else WriteFile(d, dst, d.inodes[d.links[src]])
  }

  /** `os.link(src, dst)`: the destination becomes a second name of the
      source's inode. A missing source or a missing parent directory raises
      FileNotFoundError, an existing destination FileExistsError; failures
      change nothing. */
  function OsLink(d: Disk, src: Path, dst: Path): (r: (Outcome, Disk))
    requires d.Valid()
    ensures r.1.Valid() && r.1.dirs == d.dirs
    ensures r.0.Pass? <==> src in d.links && dst !in d.links && DirOf(dst) in d.dirs
    ensures r.0.Fail? ==> r.1 == d
    ensures src in d.links && dst in d.links ==> r.0 == Fail(FileExistsError)
    ensures r.0.Pass? ==> r.1.SameFile(src, dst) && r.1.Files() == d.Files()[dst := d.Files()[src]]
  {
    if src !in d.links then (Fail(FileNotFoundError), d)
    else if dst in d.links then (Fail(FileExistsError), d)
    else if DirOf(dst) !in d.dirs then (Fail(FileNotFoundError), d)
    else (Pass, d.(links := d.links[dst := d.links[src]]))
  }

  /** A write through a hard link reaches the file it was linked from. */
  lemma LinkSharesWrites(d: Disk, src: Path, dst: Path, c: Content)
    requires d.Valid() && OsLink(d, src, dst).0.Pass?
    ensures var linked := OsLink(d, src, dst).1;
      WriteFile(linked, dst, c).0.Pass? &&
      src in WriteFile(linked, dst, c).1.Files() && WriteFile(linked, dst, c).1.Files()[src] == c
  {
    var linked := OsLink(d, src, dst).1;
    assert linked.SameFile(src, dst);
  }

  /** A write to a fresh copy leaves the file it was copied from as it was. */
  lemma CopyIsIndependent(d: Disk, src: Path, dst: Path, c: Content)
    requires d.Valid() && dst !in d.links && ShutilCopy(d, src, dst).0.Pass?
    ensures var copied := ShutilCopy(d, src, dst).1;
      WriteFile(copied, dst, c).0.Pass? &&
      src in WriteFile(copied, dst, c).1.Files() && WriteFile(copied, dst, c).1.Files()[src] == d.Files()[src]
  {
    var copied := ShutilCopy(d, src, dst).1;
    assert d.links[src] in d.inodes;
    assert copied.links[dst] == d.next;
    assert !copied.SameFile(src, dst);
  }

  /** Copying a hard link back onto the file it was linked from raises
      SameFileError. */
  lemma CopyBackOntoLinkFails(d: Disk, src: Path, dst: Path)
    requires d.Valid() && OsLink(d, src, dst).0.Pass?
    ensures var linked := OsLink(d, src, dst).1;
      ShutilCopy(linked, dst, src) == (Fail(SameFileError), linked)
  {
    var linked := OsLink(d, src, dst).1;
    assert linked.SameFile(dst, src);
  }

  /** The value `__enter__` answers after materialising: the relative path
      named after the hash, or the exception. */
  function Entered(o: Outcome, h: Digest): (r: Result<Path>)
    ensures r.Ok? <==> o.Pass?
    ensures r.Ok? ==> r.value == [Hex(h)]
    ensures r.Err? ==> r.error == o.error
  {
    if o.Pass? then Ok([Hex(h)]) else Err(o.error)
  }

  /** The disk the process sees. */
  class Volume {
    var disk: Disk

    constructor (disk: Disk)
      ensures this.disk == disk
    {
      this.disk := disk;
    }
  }

  class ReusableFile {
    const id: string
    const cacheDir: Path
    const dependents: seq<TaskSpec>
    const copy: bool
    const mutable: bool
    /** `_file_lock is not None`. */
    var lockHeld: bool

    /** A missing `dependents` list is the empty list, and the cache
        directory is always the `reusable_files` folder of the one given;
        nothing creates that folder. */
    constructor (id: string, cacheDir: Path, dependents: Option<seq<TaskSpec>>, copy: bool, mutable: bool)
      ensures this.id == id && this.cacheDir == cacheDir + [CacheFolder]
      ensures this.dependents == (if dependents.Some? then dependents.value else [])
      ensures this.copy == copy && this.mutable == mutable && !lockHeld
    {
      this.id := id;
      this.cacheDir := cacheDir + [CacheFolder];
      this.dependents := if dependents.Some? then dependents.value else [];
      this.copy := copy;
      this.mutable := mutable;
      this.lockHeld := false;
    }

    /** The `hash` property: a stream digest led by the id, with one chunk
        per dependent task. */
    function Hash(files: FileMap, canPickle: Value -> bool): (r: Result<Digest>)
      ensures dependents == [] ==> r == Ok(StreamDigest([Lit(id)]))
      ensures r.Ok? ==> r.value.StreamDigest? && |r.value.stream| == |dependents| + 1 && r.value.stream[0] == Lit(id)
      ensures r.Err? ==> r.error == ValueError || r.error == FileNotFoundError
    {
      StreamHash(id, dependents, files, canPickle)
    }

    function CachedPath(h: Digest): Path
    {
      cacheDir + [Hex(h)]
    }

    /** Copying or hard-linking the cached file to the local path `cwd /
        hash`. Either way the local path then reads as the cached file; a
        link is the cached file itself, a copy is a separate file. */
    function Materialised(d: Disk, h: Digest, cwd: Path): (r: (Outcome, Disk))
      requires d.Valid()
      ensures r.1.Valid() && r.1.dirs == d.dirs
      ensures CachedPath(h) !in d.links ==> r == (Fail(FileNotFoundError), d)
      ensures r.0.Pass? ==>
        CachedPath(h) in d.Files() && cwd + [Hex(h)] in r.1.Files() &&
        r.1.Files()[cwd + [Hex(h)]] == d.Files()[CachedPath(h)]
      ensures r.0.Pass? && !copy ==> r.1.SameFile(CachedPath(h), cwd + [Hex(h)])
      ensures r.0.Pass? && copy ==> CachedPath(h) in r.1.Files() && r.1.Files()[CachedPath(h)] == d.Files()[CachedPath(h)]
    {
      if copy then ShutilCopy(d, CachedPath(h), cwd + [Hex(h)])
      else OsLink(d, CachedPath(h), cwd + [Hex(h)])
    }

    method Materialise(vol: Volume, h: Digest, cwd: Path) returns (o: Outcome)
      requires vol.disk.Valid()
      modifies vol
      ensures (o, vol.disk) == Materialised(old(vol.disk), h, cwd)
    {
      var res := Materialised(vol.disk, h, cwd);
      o := res.0;
      vol.disk := res.1;
    }

    /** `__enter__`, with `cwd` the working directory the answered relative
        path is resolved against. A hit takes no lock; a miss takes the lock
        and looks again; a hit after waiting releases the lock even when
        materialising fails; a miss after waiting keeps it. */
    method Enter(vol: Volume, cwd: Path, afterAcquire: Disk, canPickle: Value -> bool) returns (r: Result<Path>)
      requires vol.disk.Valid() && afterAcquire.Valid()
      modifies this, vol
      ensures vol.disk.Valid()
      ensures Hash(old(vol.disk).Files(), canPickle).Err? ==>
        r == Err(Hash(old(vol.disk).Files(), canPickle).error) && vol.disk == old(vol.disk) && lockHeld == old(lockHeld)
      ensures Hash(old(vol.disk).Files(), canPickle).Ok? ==>
        var h := Hash(old(vol.disk).Files(), canPickle).value;
        if CachedPath(h) in old(vol.disk).links then
          lockHeld == old(lockHeld) &&
          vol.disk == Materialised(old(vol.disk), h, cwd).1 &&
          r == Entered(Materialised(old(vol.disk), h, cwd).0, h)
        else if CachedPath(h) in afterAcquire.links then
          !lockHeld &&
          vol.disk == Materialised(afterAcquire, h, cwd).1 &&
          r == Entered(Materialised(afterAcquire, h, cwd).0, h)
        else
          lockHeld && vol.disk == afterAcquire && r == Ok([Hex(h)])
    {
      var hr := Hash(vol.disk.Files(), canPickle);
      if hr.Err? {
        return Err(hr.error);
      }
      var h := hr.value;
      if CachedPath(h) in vol.disk.links {
        var o := Materialise(vol, h, cwd);
        return Entered(o, h);
      }
      lockHeld := true;
      vol.disk := afterAcquire;
      if CachedPath(h) in vol.disk.links {
        var o := Materialise(vol, h, cwd);
        lockHeld := false;
        return Entered(o, h);
      }
      return Ok([Hex(h)]);
    }

    /** `__exit__`. Holding the lock: the local file must exist and is
        published to the cache, and the lock is released whatever happens.
        Otherwise the local file is written back only for a mutable file. */
    method Exit(vol: Volume, cwd: Path, canPickle: Value -> bool) returns (o: Outcome)
      requires vol.disk.Valid()
      modifies this, vol
      ensures !lockHeld && vol.disk.Valid()
      ensures (old(lockHeld) || mutable) && Hash(old(vol.disk).Files(), canPickle).Err? ==>
        o == Fail(Hash(old(vol.disk).Files(), canPickle).error) && vol.disk == old(vol.disk)
      ensures (old(lockHeld) || mutable) && Hash(old(vol.disk).Files(), canPickle).Ok? ==>
        var h := Hash(old(vol.disk).Files(), canPickle).value;
        (o, vol.disk) == ShutilCopy(old(vol.disk), cwd + [Hex(h)], CachedPath(h))
      ensures !old(lockHeld) && !mutable ==> o == Pass && vol.disk == old(vol.disk)
    {
      if lockHeld {
        var hr := Hash(vol.disk.Files(), canPickle);
        lockHeld := false;
        if hr.Err? {
          return Fail(hr.error);
        }
        var local := cwd + [Hex(hr.value)];
        if local !in vol.disk.links {
          return Fail(FileNotFoundError);
        }
        var res := ShutilCopy(vol.disk, local, CachedPath(hr.value));
        vol.disk := res.1;
        return res.0;
      } else if mutable {
        var hr := Hash(vol.disk.Files(), canPickle);
        if hr.Err? {
          return Fail(hr.error);
        }
        var res := ShutilCopy(vol.disk, cwd + [Hex(hr.value)], CachedPath(hr.value));
        vol.disk := res.1;
        return res.0;
      }
      return Pass;
    }
  }

  /** A task body `with rf as file:` that writes `produced` to the file when
      it does not exist yet; an exception in the body still runs `__exit__`,
      whose own exception would replace it. The lock never outlives the
      block. For a file without dependents (whose hash reads no file):
      a block that completes leaves the file in the cache, so later blocks
      hit; a mutable hard-linked file found in the cache makes the block
      raise SameFileError, since the local path is the cached file; and on
      a miss, publishing raises FileNotFoundError when the `reusable_files`
      folder does not exist. */
  method UseInTask(rf: ReusableFile, vol: Volume, cwd: Path, afterAcquire: Disk, produced: Content, canPickle: Value -> bool)
    returns (o: Outcome)
    requires !rf.lockHeld && vol.disk.Valid() && afterAcquire.Valid()
    modifies rf, vol
    ensures !rf.lockHeld && vol.disk.Valid()
    ensures rf.dependents == [] && o.Pass? ==> rf.CachedPath(StreamDigest([Lit(rf.id)])) in vol.disk.links
    ensures (rf.dependents == [] && !rf.copy && rf.mutable &&
             rf.CachedPath(StreamDigest([Lit(rf.id)])) in old(vol.disk).links &&
             cwd + [Hex(StreamDigest([Lit(rf.id)]))] !in old(vol.disk).links && cwd in old(vol.disk).dirs) ==>
      o == Fail(SameFileError)
    ensures (rf.dependents == [] &&
             rf.CachedPath(StreamDigest([Lit(rf.id)])) !in old(vol.disk).links &&
             rf.CachedPath(StreamDigest([Lit(rf.id)])) !in afterAcquire.links && rf.cacheDir !in afterAcquire.dirs) ==>
      o == Fail(FileNotFoundError)
  {
    ghost var h := StreamDigest([Lit(rf.id)]);
    ghost var cached := rf.CachedPath(h);
    ghost var before := vol.disk;
    var p := rf.Enter(vol, cwd, afterAcquire, canPickle);
    if p.Err? {
      return Fail(p.error);
    }
    if rf.dependents == [] && !rf.lockHeld {
      var from := if cached in before.links then before else afterAcquire;
      assert cached in from.links;
      assert (Pass, vol.disk) == rf.Materialised(from, h, cwd);
    }
    var local := cwd + p.value;
    var w: Outcome := Pass;
    if local !in vol.disk.links {
      var res := WriteFile(vol.disk, local, produced);
      w := res.0;
      vol.disk := res.1;
    }
    ghost var written := vol.disk;
    assert rf.dependents == [] ==> rf.Hash(written.Files(), canPickle) == Ok(h);
    assert DirOf(cached) == rf.cacheDir;
    var e := rf.Exit(vol, cwd, canPickle);
    o := if e.Fail? then e else w;
  }
}
