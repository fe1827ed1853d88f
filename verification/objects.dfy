/** The values lazypp works with: Python objects as far as the task cache
    looks at them, paths, file contents, digests and the error kinds the
    package raises. Digests are symbolic terms: two digests of the same
    kind are equal exactly when they were taken over equal data (a
    collision-free idealisation of md5 and xxh128). Digests of different
    kinds are always different here, although md5 gives equal digests for a
    file whose bytes equal some pickle, or equal some task's JSON dump. */
module Objects {

  /** The exceptions the modelled code raises or lets escape. */
  datatype Error =
    | ValueError
    | TypeError
    | FileNotFoundError
    | FileExistsError
    | SameFileError
    | RecursionError

  datatype Option<T> = None | Some(value: T)

  datatype Result<T> = Ok(value: T) | Err(error: Error) {
    predicate IsFailure() { Err? }
    function PropagateFailure<U>(): Result<U>
      requires Err?
    {
      Err(error)
    }
    function Extract(): T
      requires Ok?
    {
      value
    }
  }

  /** Success or an exception, for operations that return nothing. */
  datatype Outcome = Pass | Fail(error: Error) {
    predicate IsFailure() { Fail? }
    function PropagateFailure(): Outcome
      requires Fail?
    {
      this
    }
  }

  /** One component of a path: a literal name, or the hexadecimal spelling
      of a digest (cache entries are named after digests). */
  datatype Name = Lit(s: string) | Hex(digest: Digest)

  /** A pathlib path, as its sequence of parts. */
  type Path = seq<Name>

  /** What a file or directory holds: raw bytes, or the pickle of a value. */
  datatype Content = Bytes(bytes: seq<bv8>) | Pickled(value: Value)

  /** The file system, reduced to what lives at each path. */
  type FileMap = map<Path, Content>

  datatype EntryKind = File | Directory

  /** The attributes of a File or Directory object (`_copy`, `_dest_path`,
      `_src_path`). */
  datatype EntryFields = EntryFields(kind: EntryKind, copy: bool, dest: Path, src: Path)

  /** A Python object as lazypp inspects it. `Obj` is any other object,
      named by its repr; a `Dict` keeps its items in insertion order. */
  datatype Value =
    | NoneValue
    | Str(s: string)
    | Obj(repr: string)
    | EntryRef(entry: EntryFields)
    | TaskRef(task: TaskSpec)
    | Dict(items: seq<Item>)

  datatype Item = Item(key: Value, value: Value)

  /** What a task's identity is computed from: the source text of its
      `task` method and the input it was constructed with. */
  datatype TaskSpec = TaskSpec(source: string, input: Value)

  /** One key of the JSON object whose md5 is a task's hash. */
  datatype Field = Field(name: string, digest: Digest)

  datatype Digest =
    | SourceDigest(source: string)   // md5 of a task method's source text
    | PickleDigest(value: Value)     // md5 of pickle.dumps(value)
    | ContentDigest(content: Content) // md5 over an entry's bytes
    | TaskDigest(dump: seq<Field>)   // md5 of the JSON dump of a task's input
    | StreamDigest(stream: seq<Name>) // xxh128 over the chunks fed to it, in order

  /** Python dicts never hold a key twice. */
  predicate DistinctKeys(items: seq<Item>)
  {
    forall i, j :: 0 <= i < j < |items| ==> items[i].key != items[j].key
  }
}
