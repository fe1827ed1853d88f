/** The cache protocol of a task (lazypp/task.py): the in-memory output,
    the on-disk cache keyed by the task's hash, a fresh run that stores
    its result, and the lazily created work directory. */
module TaskCache {
  import opened Objects
  import opened TaskIdentity

  /** A cache directory: under each task hash, the value pickled under
      each output key (`cache_dir/<hash>/<key>/data`). A key is taken as a
      single path part: an empty key, `.`, `..`, a key holding `/` or an
      absolute key would be stored elsewhere by the source. */
  class Store {
    var dirs: map<Digest, map<string, Value>>

    constructor (dirs: map<Digest, map<string, Value>>)
      ensures this.dirs == dirs
    {
      this.dirs := dirs;
    }
  }

  /** `_work_dir`: not yet chosen, given by the caller, or a temporary
      directory created on first use. */
  datatype WorkDir = Unset | Given(path: Path) | Temporary(path: Path)

  /** What `__call__` returns: the dict read back from the cache, or the
      value the task's `task` method produced. */
  datatype TaskOutput = CachedDict(entries: map<string, Value>) | RunOutput(value: Value)

  /** The loop of `_cache_output` over the output's items, as the map it
      leaves in the hash directory and whether it raised. `cache_dir / hash
      / key` raises TypeError for a key that is not a string; an entry
      value raises TypeError because `_cache` is called with one argument
      where it takes two; a value that cannot be pickled is skipped. */
  function Written(items: seq<Item>, canPickle: Value -> bool): (r: (map<string, Value>, Outcome))
    ensures r.1 == Pass || r.1 == Fail(TypeError)
    ensures forall k :: k in r.0 ==> canPickle(r.0[k])
  {
    if items == [] then (map[], Pass)
    else
      var before := Written(items[..|items| - 1], canPickle);
      var last := items[|items| - 1];
      if before.1.Fail? then before
      else if !last.key.Str? || last.value.EntryRef? then (before.0, Fail(TypeError))
      else if canPickle(last.value) then (before.0[last.key.s := last.value], Pass)
      else before
  }

  /** One more item of the loop, after items that were all stored. */
  lemma WrittenStep(items: seq<Item>, i: nat, canPickle: Value -> bool)
    requires i < |items| && Written(items[..i], canPickle).1 == Pass
    ensures var before := Written(items[..i], canPickle).0;
      Written(items[..i + 1], canPickle) ==
        if !items[i].key.Str? || items[i].value.EntryRef? then (before, Fail(TypeError))
        else if canPickle(items[i].value) then (before[items[i].key.s := items[i].value], Pass)
        else (before, Pass)
  {
    assert items[..i + 1][..i] == items[..i];
  }

  /** An item `_cache_output` cannot store. */
  predicate Unstorable(item: Item)
  {
    !item.key.Str? || item.value.EntryRef?
  }

  /** `_cache_output` on the whole store: nothing for a non-dict output;
      otherwise the hash directory is replaced by what the loop writes. */
  function CacheOutputEffect(dirs: map<Digest, map<string, Value>>, hash: Result<Digest>, output: Value, canPickle: Value -> bool)
    : (r: (Outcome, map<Digest, map<string, Value>>))
    ensures !output.Dict? ==> r == (Pass, dirs)
    ensures output.Dict? && hash.Err? ==> r == (Fail(hash.error), dirs)
    ensures output.Dict? && hash.Ok? ==>
      r.1.Keys == dirs.Keys + {hash.value} &&
      (forall d :: d in dirs && d != hash.value ==> r.1[d] == dirs[d])
  {
    if !output.Dict? then (Pass, dirs)
    else if hash.Err? then (Fail(hash.error), dirs)
    else
      var w := Written(output.items, canPickle);
      (w.1, dirs[hash.value := w.0])
  }

  /** Once the loop has raised, later items change nothing. */
  lemma {:induction false} WrittenStopsAtFailure(items: seq<Item>, i: nat, canPickle: Value -> bool)
    requires i <= |items| && Written(items[..i], canPickle).1.Fail?
    ensures Written(items, canPickle) == Written(items[..i], canPickle)
  {
    if i < |items| {
      assert items[..|items| - 1][..i] == items[..i];
      WrittenStopsAtFailure(items[..|items| - 1], i, canPickle);
    } else {
      assert items[..i] == items;
    }
  }

  /** `_cache_output` raises exactly when some item cannot be stored, and
      then only TypeError. */
  lemma {:induction false} WrittenFailsIff(items: seq<Item>, canPickle: Value -> bool)
    ensures Written(items, canPickle).1.Fail? <==> exists i :: 0 <= i < |items| && Unstorable(items[i])
    ensures Written(items, canPickle).1.Fail? ==> Written(items, canPickle).1 == Fail(TypeError)
  {
    if items != [] {
      var init := items[..|items| - 1];
      WrittenFailsIff(init, canPickle);
      assert forall i :: 0 <= i < |init| ==> init[i] == items[i];
      if exists i :: 0 <= i < |items| && Unstorable(items[i]) {
        var i :| 0 <= i < |items| && Unstorable(items[i]);
        if i < |init| {
          assert Unstorable(init[i]);
        }
      }
    }
  }

  /** Store/load round trip: for an output dict of plain values, caching
      succeeds and the hash directory holds exactly the pickleable items,
      each under its key with its value. */
  lemma {:induction false} WrittenRoundTrip(items: seq<Item>, canPickle: Value -> bool)
    requires KeysAreStrings(items) && DistinctKeys(items)
    requires forall i :: 0 <= i < |items| ==> !items[i].value.EntryRef?
    ensures Written(items, canPickle).1 == Pass
    ensures forall i :: 0 <= i < |items| && canPickle(items[i].value) ==>
      items[i].key.s in Written(items, canPickle).0 && Written(items, canPickle).0[items[i].key.s] == items[i].value
    ensures forall k :: k in Written(items, canPickle).0 ==>
      exists i :: 0 <= i < |items| && items[i].key == Str(k) && canPickle(items[i].value)
  {
    if items != [] {
      var init := items[..|items| - 1];
      var last := items[|items| - 1];
      assert forall i :: 0 <= i < |init| ==> init[i] == items[i];
      WrittenRoundTrip(init, canPickle);
      forall i | 0 <= i < |init| ensures init[i].key.s != last.key.s {
        assert items[i].key != items[|items| - 1].key;
      }
      var w := Written(items, canPickle).0;
      forall k | k in w
        ensures exists i :: 0 <= i < |items| && items[i].key == Str(k) && canPickle(items[i].value)
      {
        if k != last.key.s || !canPickle(last.value) {
          var i :| 0 <= i < |init| && init[i].key == Str(k) && canPickle(init[i].value);
          assert items[i] == init[i];
        }
      }
    }
  }

  /** A run whose caching raises part-way still leaves a hash directory:
      the items before the first unstorable one that could be pickled. */
  lemma WrittenBeforeFailure(items: seq<Item>, j: nat, canPickle: Value -> bool)
    requires j < |items| && Unstorable(items[j])
    requires forall i :: 0 <= i < j ==> !Unstorable(items[i])
    ensures Written(items, canPickle) == (Written(items[..j], canPickle).0, Fail(TypeError))
  {
    WrittenFailsIff(items[..j], canPickle);
    assert forall i :: 0 <= i < j ==> items[..j][i] == items[i];
    assert items[..j + 1][..j] == items[..j];
    WrittenStopsAtFailure(items, j + 1, canPickle);
  }

  /** A task object: its identity, the cache directory it uses, and the
      state `__call__` and `work_dir` update. `strayCacheOutput` is the
      attribute `self.cache_output` that a fresh run assigns, which nothing
      reads. */
  class Task {
    const spec: TaskSpec
    const store: Store
    const canPickle: Value -> bool
    var cachedOutput: Option<map<string, Value>>
    var workDir: WorkDir
    var strayCacheOutput: Option<Value>

    /** `BaseTask.__init__`: a given work directory is kept, otherwise it is
        created on first use; nothing is cached in memory yet. */
    constructor (spec: TaskSpec, store: Store, workDir: Option<Path>, canPickle: Value -> bool)
      ensures this.spec == spec && this.store == store && this.canPickle == canPickle
      ensures this.workDir == (if workDir.Some? then Given(workDir.value) else Unset)
      ensures cachedOutput == None && strayCacheOutput == None
    {
      this.spec := spec;
      this.store := store;
      this.canPickle := canPickle;
      this.workDir := if workDir.Some? then Given(workDir.value) else Unset;
      this.cachedOutput := None;
      this.strayCacheOutput := None;
    }

    /** `_check_cache`: whether the store holds a directory for the hash. */
    method CheckCache(files: FileMap) returns (r: Result<bool>)
      ensures var h := Hash(spec, files, canPickle);
        (h.Err? ==> r == Err(h.error)) &&
        (h.Ok? ==> r.Ok? && (r.value <==> h.value in store.dirs))
    {
      var h := Hash(spec, files, canPickle);
      if h.Err? {
        return Err(h.error);
      }
      return Ok(h.value in store.dirs);
    }

    /** `_load_from_cache`: reads the hash directory back and remembers it
        as the in-memory output; a missing directory raises
        FileNotFoundError. */
    method LoadFromCache(files: FileMap) returns (r: Result<map<string, Value>>)
      modifies this`cachedOutput
      ensures var h := Hash(spec, files, canPickle);
        (h.Err? ==> r == Err(h.error) && cachedOutput == old(cachedOutput)) &&
        (h.Ok? && h.value !in store.dirs ==> r == Err(FileNotFoundError) && cachedOutput == old(cachedOutput)) &&
        (h.Ok? && h.value in store.dirs ==> r == Ok(store.dirs[h.value]) && cachedOutput == Some(store.dirs[h.value]))
    {
      var h := Hash(spec, files, canPickle);
      if h.Err? {
        return Err(h.error);
      }
      if h.value !in store.dirs {
        return Err(FileNotFoundError);
      }
      cachedOutput := Some(store.dirs[h.value]);
      return Ok(store.dirs[h.value]);
    }

    /** `_cache_output`: a non-dict output is not stored; for a dict the
        hash directory is removed and made again, then filled item by item. */
    method CacheOutput(files: FileMap, output: Value) returns (o: Outcome)
      modifies store
      ensures (o, store.dirs) == CacheOutputEffect(old(store.dirs), Hash(spec, files, canPickle), output, canPickle)
    {
      if !output.Dict? {
        return Pass;
      }
      var h := Hash(spec, files, canPickle);
      if h.Err? {
        return Fail(h.error);
      }
      var hash := h.value;
      var items := output.items;
      store.dirs := store.dirs[hash := map[]];
      var i := 0;
      while i < |items|
        invariant 0 <= i <= |items|
        invariant Written(items[..i], canPickle).1 == Pass
        invariant store.dirs == old(store.dirs)[hash := Written(items[..i], canPickle).0]
      {
        var item := items[i];
        WrittenStep(items, i, canPickle);
        if !item.key.Str? || item.value.EntryRef? {
          WrittenStopsAtFailure(items, i + 1, canPickle);
          return Fail(TypeError);
        }
        if canPickle(item.value) {
          store.dirs := store.dirs[hash := store.dirs[hash][item.key.s := item.value]];
        }
        i := i + 1;
      }
      assert items[..i] == items;
      return Pass;
    }

    /** The `work_dir` property: the first use without a given directory
        creates the temporary directory `tmp`; later uses answer the same
        path. */
    method WorkDirPath(tmp: Path) returns (p: Path)
      modifies this`workDir
      ensures old(workDir).Unset? ==> workDir == Temporary(tmp) && p == tmp
      ensures !old(workDir).Unset? ==> workDir == old(workDir) && p == old(workDir).path
    {
      if workDir.Unset? {
        workDir := Temporary(tmp);
      }
      p := workDir.path;
    }

    /** `__call__`. The hash is taken first (it names the task's lock). A
        value held in memory is returned as is; otherwise a cache hit is
        loaded and remembered. Otherwise the task runs in its work directory
        and produces `produced`, leaving the file system as `filesAfterRun`;
        the output is cached and returned, and only the stray attribute
        records it, so the in-memory slot stays empty. */
    method Call(files: FileMap, filesAfterRun: FileMap, produced: Value, tmp: Path) returns (r: Result<TaskOutput>)
      modifies this, store
      ensures var h := Hash(spec, files, canPickle);
        h.Err? ==>
          r == Err(h.error) && cachedOutput == old(cachedOutput) && workDir == old(workDir) &&
          strayCacheOutput == old(strayCacheOutput) && store.dirs == old(store.dirs)
      ensures var h := Hash(spec, files, canPickle);
        h.Ok? && old(cachedOutput).Some? ==>
          r == Ok(CachedDict(old(cachedOutput).value)) && cachedOutput == old(cachedOutput) &&
          workDir == old(workDir) && strayCacheOutput == old(strayCacheOutput) && store.dirs == old(store.dirs)
      ensures var h := Hash(spec, files, canPickle);
        h.Ok? && old(cachedOutput).None? && h.value in old(store.dirs) ==>
          r == Ok(CachedDict(old(store.dirs)[h.value])) && cachedOutput == Some(old(store.dirs)[h.value]) &&
          workDir == old(workDir) && strayCacheOutput == old(strayCacheOutput) && store.dirs == old(store.dirs)
      ensures var h := Hash(spec, files, canPickle);
        var effect := CacheOutputEffect(old(store.dirs), Hash(spec, filesAfterRun, canPickle), produced, canPickle);
        h.Ok? && old(cachedOutput).None? && h.value !in old(store.dirs) ==>
          workDir == (if old(workDir).Unset? then Temporary(tmp) else old(workDir)) &&
          cachedOutput == None && store.dirs == effect.1 &&
          (effect.0.Fail? ==> r == Err(effect.0.error) && strayCacheOutput == old(strayCacheOutput)) &&
          (effect.0.Pass? ==> r == Ok(RunOutput(produced)) && strayCacheOutput == Some(produced))
    {
      var h := Hash(spec, files, canPickle);
      if h.Err? {
        return Err(h.error);
      }
      if cachedOutput.Some? {
        return Ok(CachedDict(cachedOutput.value));
      }
      var hit := CheckCache(files);
      if hit.value {
        var loaded := LoadFromCache(files);
        return Ok(CachedDict(loaded.value));
      }
      var dir := WorkDirPath(tmp);
      var output := produced;
      var o := CacheOutput(filesAfterRun, output);
      if o.Fail? {
        return Err(o.error);
      }
      strayCacheOutput := Some(output);
      return Ok(RunOutput(output));
    }
  }

  /** Two calls on one task object with an unchanged file system: the
      second is never served from memory after a fresh run; it reads the
      hash directory the first call wrote (possibly only part of the output,
      if caching raised). */
  method CallTwice(t: Task, files: FileMap, produced: Value, tmp: Path) returns (first: Result<TaskOutput>, second: Result<TaskOutput>)
    requires t.cachedOutput.None?
    requires Hash(t.spec, files, t.canPickle).Ok? && Hash(t.spec, files, t.canPickle).value !in t.store.dirs
    requires produced.Dict?
    modifies t, t.store
    ensures var h := Hash(t.spec, files, t.canPickle).value;
      h in t.store.dirs &&
      second == Ok(CachedDict(t.store.dirs[h])) &&
      t.store.dirs[h] == Written(produced.items, t.canPickle).0
  {
    first := t.Call(files, files, produced, tmp);
    assert t.cachedOutput.None?;
    second := t.Call(files, files, produced, tmp);
  }
}
