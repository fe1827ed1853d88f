# lazypp task cache, in Dafny

lazypp runs Python "tasks" and caches their outputs on disk. Each output is
stored under the task's hash. The hash is a digest of the task's source
and of its input. A dependent task contributes its own hash, and a File or
Directory contributes the digest of its content. This project models the
core of that machinery and proves properties of the model:

- `objects.dfy` (module `Objects`) holds the values the package works with:
  - Python objects as the cache sees them, paths, file contents and error kinds;
  - digests as symbolic terms. Two digests of the same kind are equal
    exactly when they were taken over equal data, an idealisation of md5
    and xxh128. Digests of different kinds never coincide in the model.
- `file_objects.dfy` (module `FileObjects`) models File and Directory entries:
  - the check that a destination path stays inside its base directory;
  - the entry constructor and the content digest;
  - `copy`, `_copy_to_dest` and `_cache`, over a file system that is a finite
    map from paths to contents. Joining paths follows `pathlib`: an absolute
    right-hand side replaces the left one.
  - the `path` property. It always answers the destination, because a
    `pathlib` path is never false.
- `task_identity.dfy` (module `TaskIdentity`) models the input and output
  validators and `_dump_input`/`hash`. `_dump_input` builds a JSON object:
  - first a reserved source key holding the source digest;
  - then one field per input key, where a later key overwrites an earlier
    field of the same name.
- `task_cache.dfy` (module `TaskCache`) models a task object and the cache
  directory it uses:
  - the in-memory output, `_check_cache`, `_load_from_cache` and `_cache_output`;
  - the lazily created work directory and `__call__`.
- `gather.dfy` (module `Gather`) models `gather`. It collects one awaitable
  per DummyOutput or task in a nested structure. It then rebuilds the
  structure with every DummyOutput replaced by its restored output.
- `reusable_file.dfy` (module `ReusableFiles`) models `ReusableFile`:
  - a file shared through `cache_dir/reusable_files`;
  - its stream hash;
  - the enter/exit protocol around an inter-process lock;
  - `shutil.copy`, `os.link` and writing a file, over a disk of inodes, so
    that a hard link and the file it links to are one file.

The model follows the code as written, including four behaviours a reader
might not expect:

- A fresh run assigns the result to the attribute `cache_output`, never
  to `_cached_output` (lazypp/task.py:143). A second call on the same task
  object therefore reads the disk cache again rather than memory. See
  `TaskCache.CallTwice`.
- `_cache_output` calls an entry's `_cache` with one argument where two are
  required (lazypp/task.py:228). An output holding a File or Directory
  therefore raises TypeError. The hash directory is left holding the items
  written before the failure, and a later `_check_cache` finds it.
- A non-empty `str` anywhere in a structure given to `gather` makes
  `gather` recurse forever. A `str` is a Sequence whose items are
  one-character strs. This is modelled as RecursionError.
- A non-empty tuple, bytes or range makes the rebuild raise TypeError on
  item assignment.

The `visited` set in `gather` is never added to, so it never stops a walk.

Inputs the source reads from the environment are parameters of the model:
- the pickleability test `canPickle`;
- `restore_output` as `restore`;
- the resolved source path of an entry;
- the temporary directory a task creates;
- the value a task's `task` method produces and the file system after it
  ran;
- the file system as another process left it when the lock is acquired.

## Model

| member | source | states |
|---|---|---|
| FileObjects.IsOutsideBase | lazypp/file_objects.py:9-21 | the depth walk answers true exactly when some prefix of the path has more `..` parts than descending parts |
| FileObjects.NoParentNeverOutside | lazypp/file_objects.py:13-21 | a path with no `..` part is never outside its base |
| FileObjects.EscapeIsDecidedByPrefix | lazypp/file_objects.py:19-20 | the walk stops at the first escape: appending parts to an escaping path cannot make it stay inside |
| FileObjects.CurrentPartCounts | lazypp/file_objects.py:15-18 | inserting a `.` part anywhere changes neither the `..` count nor the descending count |
| FileObjects.CurrentPartIsNeutral | lazypp/file_objects.py:13-21 | a path with a `.` part inserted anywhere escapes its base exactly when the path without it does |
| FileObjects.Join | lazypp/file_objects.py:98-104 | the `/` of `pathlib`: an absolute right-hand path is the result; a relative one is appended to the base |
| FileObjects.AbsoluteDestinationIgnoresBase | lazypp/file_objects.py:37-41 | every absolute destination without `..` parts passes the outside-base check, and joining it to any base gives the destination itself, whatever the base; for a non-empty relative base the result does not lie below the base |
| FileObjects.EntryDigest | lazypp/file_objects.py:72-77 | a File with a missing source raises FileNotFoundError; a missing Directory digests as empty (the `os.walk` of lines 108-116 yields nothing); otherwise the digest is of the source content |
| FileObjects.CopyResult | lazypp/file_objects.py:97-104 | copy succeeds iff the target is free or overwrite is set, and the source exists and differs from the target; an occupied target without overwrite raises FileExistsError and changes nothing; on success the target holds the source content; other paths are untouched |
| FileObjects.Entry.EffectivePath | lazypp/file_objects.py:43-47 | the `path` property answers the destination path |
| FileObjects.Entry.Copy | lazypp/file_objects.py:134-141 | copying to `target / path` (the destination itself when it is absolute) has exactly the effect `CopyResult` describes, File and Directory alike |
| FileObjects.Entry.CopyToDest | lazypp/file_objects.py:79-81 | copies into `work_dir / dest` without overwrite when the copy flag is set, and does nothing otherwise |
| FileObjects.Entry.Cache | lazypp/file_objects.py:83-95 | succeeds iff the source digest can be taken, the work file `work_dir / dest` exists, a File is not copied onto itself and a Directory target is free; then the content goes under the digest's name, the source is pointed at it and the entry is pickled to `data`; on failure nothing changes |
| FileObjects.CacheThenCopy | lazypp/file_objects.py:122-141 | caching an entry and then copying it out of the cache reproduces the content it had at `work_dir / dest` |
| FileObjects.NewEntry | lazypp/file_objects.py:25-41 | raises ValueError iff the destination leaves its base; a given `dest` forces copying on and becomes the destination; otherwise the flag is kept and the destination is `path`; the source is the resolved path |
| TaskIdentity.IsValidInput | lazypp/task.py:51-68 | accepts exactly None and the dicts whose keys are all strings and whose values are each a task, an entry or pickleable |
| TaskIdentity.IsValidOutput | lazypp/task.py:79-92 | accepts exactly None and the dicts whose keys are all strings and whose values are each an entry or pickleable |
| TaskIdentity.ItemsPassMeansAll | lazypp/task.py:57-68 | the validators' early-exit loop accepts iff every key is a string and every value passes the test |
| TaskIdentity.ValidInputShape | lazypp/task.py:51-59 | `_is_valid_input` accepts None, rejects every non-dict and rejects a dict with a non-string key |
| TaskIdentity.ValidOutputIsValidInput | lazypp/task.py:85-92 | every valid output is a valid input (an entry or pickleable value is accepted by both, tasks only by the input test) |
| TaskIdentity.ValueDigest | lazypp/task.py:264-269 | only a task's hash or an entry's content digest can fail, an entry only with FileNotFoundError; a task contributes a task digest, its hash |
| TaskIdentity.DumpInput | lazypp/task.py:243-271 | invalid input raises ValueError; the only errors are ValueError and FileNotFoundError; a successful dump always holds the source key |
| TaskIdentity.DumpItems | lazypp/task.py:263-269 | the loop raises only ValueError or FileNotFoundError, and never removes a field it was given |
| TaskIdentity.Hash | lazypp/task.py:235-241 | invalid input raises ValueError; errors are ValueError or FileNotFoundError; a hash is a task digest of a dump holding the source key |
| TaskIdentity.SetFieldLookup | lazypp/task.py:263-269 | assigning a JSON key answers the new digest for that key and the old lookup for every other key |
| TaskIdentity.SetFieldNames | lazypp/task.py:263-269 | assigning an existing key keeps the key order; a new key is appended last |
| TaskIdentity.DumpItemsNames | lazypp/task.py:263-269 | from item `i` on, the loop keeps the keys distinct and ends with exactly the given keys and the remaining input keys; when no remaining key was given before, the given keys come first and the remaining ones follow in input order |
| TaskIdentity.DumpItemsLookups | lazypp/task.py:263-269 | after the loop, each remaining input key holds its value's digest and every other key keeps the digest it had |
| TaskIdentity.DumpItemsOrder | lazypp/task.py:263-269 | from item `i` on, keys already in the dict keep their places and the remaining keys not yet present are appended in input order |
| TaskIdentity.DumpInputEdgeCases | lazypp/task.py:249-261 | invalid input raises ValueError; None input dumps exactly the source key with the source digest |
| TaskIdentity.DumpOfDict | lazypp/task.py:254-271 | a valid dict dumps the source key plus one field per input key, each holding its value's digest (a task its hash, an entry its content digest, anything else its pickle digest); the source field always comes first and the other keys follow in input order; without a clash the source field keeps the source digest, and a user key named like the source key overwrites it |
| TaskIdentity.DumpItemsSucceeds | lazypp/task.py:263-269 | the loop succeeds iff every remaining value's digest can be taken |
| TaskIdentity.HashSucceeds | lazypp/task.py:235-271 | a task's hash can be taken iff its input is valid and every value's digest can be taken, so a failing dependency or a missing File source makes it fail |
| TaskIdentity.HashFollowsDependencyHashes | lazypp/task.py:263-269 | two tasks with the same source and the same keys in the same order, whose values digest alike, have the same hash: a task's hash depends on its dependencies only through their hashes |
| TaskIdentity.HashSeparatesDependencies | lazypp/task.py:241-269 | two valid dict inputs where some key's values digest differently have different hashes |
| TaskCache.Written | lazypp/task.py:224-233 | the write loop raises only TypeError, and every value it stores is pickleable |
| TaskCache.CacheOutputEffect | lazypp/task.py:215-223 | a non-dict output stores nothing; a hash failure changes nothing; otherwise only the task's hash directory is replaced |
| TaskCache.WrittenStopsAtFailure | lazypp/task.py:224-233 | once the loop has raised, later items change nothing |
| TaskCache.WrittenFailsIff | lazypp/task.py:224-233 | the loop raises iff some key is not a string or some value is an entry, and then raises TypeError |
| TaskCache.WrittenRoundTrip | lazypp/task.py:203-233 | for string keys, each taken as one path part, and no entries, caching succeeds and the directory read back holds exactly the pickleable items, each under its key |
| TaskCache.WrittenBeforeFailure | lazypp/task.py:219-233 | a loop that raises at item `j` leaves the items before `j` written, with TypeError |
| TaskCache.Task.constructor | lazypp/task.py:98-113 | a given work directory is kept, otherwise none is chosen yet; nothing is held in memory |
| TaskCache.Task.CheckCache | lazypp/task.py:184-191 | answers whether the store holds the task's hash directory, or the hash's error |
| TaskCache.Task.LoadFromCache | lazypp/task.py:193-213 | a missing hash directory raises FileNotFoundError; otherwise the directory's contents are answered and remembered in memory |
| TaskCache.Task.CacheOutput | lazypp/task.py:215-233 | the store afterwards is exactly `CacheOutputEffect` of the store before |
| TaskCache.Task.WorkDirPath | lazypp/task.py:273-283 | the first use without a given directory creates the temporary one; later uses answer the same path |
| TaskCache.Task.Call | lazypp/task.py:119-146 | a hash error raises and changes nothing; an in-memory output is answered; a store hit is loaded and remembered; a miss runs the task in its work directory, caches the output, and records it only in the stray attribute |
| TaskCache.CallTwice | lazypp/task.py:142-143 | after a fresh run, a second call on the same object is served from the hash directory the first call wrote |
| Gather.Collected | lazypp/utils.py:36-48 | the walk collects nothing exactly when the structure holds no DummyOutput and no task |
| Gather.GatherTask | lazypp/utils.py:36-48 | the walk raises RecursionError iff a non-empty str occurs, and otherwise appends exactly the structure's awaitables in depth-first order |
| Gather.GatherItems | lazypp/utils.py:39-41 | walking a sequence item by item raises RecursionError iff some item holds a non-empty str, and otherwise appends the items' awaitables in order |
| Gather.GatherEntries | lazypp/utils.py:42-44 | walking a mapping's values in order raises RecursionError iff some value holds a non-empty str, and otherwise appends the values' awaitables in order |
| Gather.CollectedAreLeafAwaitables | lazypp/utils.py:36-50 | the awaitables are one per DummyOutput or task leaf occurrence, in left-to-right leaf order, other leaves contributing nothing |
| Gather.Restored | lazypp/utils.py:59-70 | the rebuild raises only TypeError or RecursionError, and a structure with no DummyOutput and no task comes back unchanged |
| Gather.RestoreDummyOutput | lazypp/utils.py:59-70 | the rebuild answers `Restored` of the structure |
| Gather.RestoreItems | lazypp/utils.py:62-64 | the index-by-index assignment into the copied sequence answers what restoring each item in turn answers, and raises at the first assignment into an immutable sequence |
| Gather.RestoreEntries | lazypp/utils.py:65-67 | the key-by-key assignment into the copied mapping answers what restoring each value in turn answers |
| Gather.RestoredOkIff | lazypp/utils.py:59-70 | the rebuild succeeds iff the structure holds no non-empty str and no non-empty immutable sequence |
| Gather.RestoredReplaces | lazypp/utils.py:57-72 | a successful rebuild keeps every container's kind, length and keys, replaces each DummyOutput by its restored output and keeps every other leaf |
| Gather.ReplacesIsUnique | lazypp/utils.py:57-72 | that description determines the rebuilt structure completely |
| Gather.GatherOutput | lazypp/utils.py:32-76 | `gather` awaits exactly the collected awaitables and answers the rebuilt structure, raising ValueError when that is None |
| Gather.GatherOfDummies | tests/test_reusable.py:55 | gathering a list of DummyOutputs awaits their tasks in list order and answers the list of their restored outputs, in the same order |
| ReusableFiles.DependencyHashes | lazypp/reusable_file_objects.py:40-41 | feeding the dependents raises only ValueError or FileNotFoundError, and on success gives one chunk per dependent |
| ReusableFiles.StreamHash | lazypp/reusable_file_objects.py:36-42 | the hash is a stream digest led by the id with one chunk per dependent; without dependents it is the digest of the id alone; errors are the dependents' hash errors |
| ReusableFiles.DependencyHashesOkIff | lazypp/reusable_file_objects.py:38-42 | the stream can be fed iff every dependent's hash can be taken, and then holds one chunk per dependent, in order |
| ReusableFiles.StreamHashFailsAtFirstDependent | lazypp/reusable_file_objects.py:40-41 | a failing dependent makes the hash fail with the error of the first failing dependent |
| ReusableFiles.StreamHashIdentifies | lazypp/reusable_file_objects.py:36-42 | two reusable files share a hash iff they have the same id and dependents with pairwise equal hashes in the same order |
| ReusableFiles.WriteFile | tests/test_reusable.py:28-29 | writing an existing file changes what every path linked to it reads; writing a new file needs its parent directory, else raises FileNotFoundError and changes nothing; other files and links are kept |
| ReusableFiles.ShutilCopy | lazypp/reusable_file_objects.py:73 | `shutil.copy` raises SameFileError iff source and destination are the same file (a path or a hard link to it); a missing source raises FileNotFoundError; success needs the destination or its parent directory to exist; then the destination reads as the source, the source is kept, and files not linked to the destination are untouched; failures change nothing |
| ReusableFiles.OsLink | lazypp/reusable_file_objects.py:49 | `os.link` succeeds iff the source exists, the destination does not and its parent directory does; then the destination is the same file as the source and reads as it; an existing destination raises FileExistsError; failures change nothing |
| ReusableFiles.LinkSharesWrites | lazypp/reusable_file_objects.py:49 | after a hard link, writing the linked path changes the file it was linked from |
| ReusableFiles.CopyIsIndependent | lazypp/reusable_file_objects.py:47 | after a copy to a new path, writing the copy leaves the original as it was |
| ReusableFiles.CopyBackOntoLinkFails | lazypp/reusable_file_objects.py:78-79 | copying a hard link back onto the file it links to raises SameFileError and changes nothing |
| ReusableFiles.ReusableFile.constructor | lazypp/reusable_file_objects.py:17-34 | the cache directory is always `cache_dir/reusable_files`, missing dependents are the empty list, and no lock is held |
| ReusableFiles.ReusableFile.Hash | lazypp/reusable_file_objects.py:36-42 | the file's hash is a stream digest led by its id with one chunk per dependent, the id's own digest without dependents; errors are the dependents' hash errors |
| ReusableFiles.ReusableFile.Materialised | lazypp/reusable_file_objects.py:45-49 | a missing cached file raises FileNotFoundError; on success the local path reads as the cached file, is that very file when linked, and a copy leaves the cached file as it was |
| ReusableFiles.ReusableFile.Materialise | lazypp/reusable_file_objects.py:46-49 | materialises the cached file locally by copy when `copy` is set, by hard link otherwise, with the effect `Materialised` describes |
| ReusableFiles.ReusableFile.Enter | lazypp/reusable_file_objects.py:44-64 | a hit takes no lock and materialises; a miss takes the lock and looks again; a hit after waiting materialises and releases the lock even on failure; a miss after waiting answers `Path(hash)` with the lock held |
| ReusableFiles.ReusableFile.Exit | lazypp/reusable_file_objects.py:66-79 | the lock is never held afterwards; holding it, a missing local file raises FileNotFoundError and an existing one is copied into the cache with `shutil.copy`'s effect; without it, only a mutable file is copied back |
| ReusableFiles.UseInTask | tests/test_reusable.py:25-33 | a `with` block that writes the file when it is absent never leaves the lock held; for a file without dependents, a completed block leaves the file in the cache, a mutable hard-linked hit raises SameFileError, and a miss without a `reusable_files` folder raises FileNotFoundError |

## Left out

- Asyncio coordination is not modelled: the per-hash `_global_locks`, the `asyncio.gather` of dependencies in `_setup`, the `run_in_executor` branch and the event loop in `gather`. The model is sequential.
- `_setup`'s copying of input entries and dependency outputs into the work directory is not modelled (lazypp/task.py:157-182). It is file I/O and asynchronous waiting. Its ValueError on invalid input is already raised earlier, by the hash.
- `__getitem__`, the `output` property, `__str__`/`__repr__`, the print logging in `__call__` and `run_sh` are not modelled. They are I/O or trivial.
- The `os.chdir` into the work directory and back in `__call__` is not modelled. The model has no current directory.
- md5, xxh128, `pickle`, `getsource` and `json.dumps` are symbolic terms. Digests never collide in the model, not even across kinds: md5 gives a File whose bytes equal some pickle, or equal some task's JSON dump, the same digest as that pickle or dump, and the model keeps them apart.
- FileObjects.EntryDigest: a Directory's md5 is fed the bytes of its files only, not their names or layout, so two directories holding the same bytes under different names share a digest in the source. The model digests a directory as one content value and does not capture this.
- ReusableFiles.StreamHashIdentifies: holds for the symbolic stream digest, which keeps chunk boundaries. The real xxh128 hashes the concatenated bytes, so an id and a dependent hash could shift across a boundary and collide.
- TaskIdentity.HashSeparatesDependencies: relies on md5 being free of collisions.
- `_pickleable` is the total predicate `canPickle`. An exception other than PicklingError, which the source lets escape from the validators, is not modelled.
- A directory is a single entry of the file-system map of `FileObjects` and `TaskCache`. `os.walk` order, per-file chunking and `os.makedirs` of parent directories are not modelled there, and making parent directories never fails. The disk of `ReusableFiles` does keep directories, since nothing creates `cache_dir/reusable_files` and publishing to it fails without it.
- `Path.resolve()` is not modelled: the resolved source path is a parameter of `FileObjects.NewEntry`.
- FileObjects.NewEntry: an absolute destination passes `_is_outside_base`, and copying then writes to the destination itself, whatever the work directory (see `FileObjects.AbsoluteDestinationIgnoresBase`). This is modelled, not excluded.
- FileObjects.Entry.Copy: paths are compared part by part and `..` is never resolved, and the same holds for `FileObjects.Entry.CopyToDest`, `FileObjects.Entry.Cache` and `FileObjects.CopyResult`. A destination such as `sub/../y.txt` passes `_is_outside_base`, but in the model it names a different file from `y.txt`. So the FileExistsError the source raises when `work/y.txt` already exists (lazypp/file_objects.py:99-101) is missed, and `_cache` looks the work file up under its unresolved name.
- FileObjects.Entry.Cache: the source digest is taken once, where File's `_cache` takes it twice (lazypp/file_objects.py:85, 89). Both agree unless the file changes in between.
- A running task that raises is not modelled. `TaskCache.Task.Call` takes the produced value as a parameter.
- TaskCache.Task.Call: `_setup` awaits every dependency task in the input before running (lazypp/task.py:174-177). Those calls write their own hash directories and can raise, and the model does not run them, so its claim that a miss leaves the store as `CacheOutputEffect` describes holds only when no dependency has to run.
- TaskCache.Task.constructor: `Path(work_dir) if work_dir else None` treats an empty string as no work directory. The `Option` parameter cannot tell an empty string from a given path, so a caller passes `None` for it.
- TaskCache.WrittenRoundTrip: each output key is one atomic path part in the model. In the source the key is joined to the hash directory with `/` (lazypp/task.py:226), so an empty key, `.`, `..`, a key containing `/` and an absolute key land elsewhere and do not round-trip; `Written` and `CacheOutputEffect` do not capture those keys either.
- ReusableFiles.ReusableFile.Enter: the hash is taken once per call, where the source recomputes it at every use. The two differ only when another process changes a dependency's input files while this one waits for the lock.
- The lock is a boolean field. `FileLock` wraps `fcntl.flock`, and lazypp/file_lock.py is not part of this model. That file defines no `acquire`/`release`, which `ReusableFile` calls. Waiting for the lock is modelled by the disk handed over as `afterAcquire`.
- `restore_output` and the DummyOutput class are not part of this model: `restore` is a parameter.
- Gather.Restored: structures are values, so object identity is not modelled. The `id`-based `visited` test, an object reached along two paths, and `copy.deepcopy` are not modelled; the copy is the value itself.
- Gather.Restored: every Mapping is a dict with string keys. A read-only mapping, whose item assignment would raise TypeError, is not modelled.
