/** A task's identity (lazypp/task.py): the input and output validators and
    the hash, the md5 of a JSON object holding the digest of the task's
    source and one digest per input key, where a dependent task contributes
    its own hash. Pickleability is decided by `canPickle`, which the model
    leaves open. */
module TaskIdentity {
  import opened Objects
  import FileObjects

  /** The reserved key that holds the digest of the task's source. */
  const SourceKey := "__lazypp_task_source__"

  /** The validators' loop over a dict's items: the first item whose key is
      not a string, or whose value fails `accepted`, decides false. */
  function ItemsPass(items: seq<Item>, accepted: Value -> bool): bool
  {
    if items == [] then true
    else if !items[0].key.Str? then false
    else if !accepted(items[0].value) then false
    else ItemsPass(items[1..], accepted)
  }

  /** What `_is_valid_input` accepts as a value: a task, an entry, or a
      pickleable object. */
  function InputTest(canPickle: Value -> bool): Value -> bool
  {
    (v: Value) => v.TaskRef? || v.EntryRef? || canPickle(v)
  }

  /** What `_is_valid_output` accepts as a value: an entry or a pickleable
      object. */
  function OutputTest(canPickle: Value -> bool): Value -> bool
  {
    (v: Value) => v.EntryRef? || canPickle(v)
  }

  /** `_is_valid_input`: None, or a dict with string keys whose values are
      tasks, entries or pickleable. */
  predicate IsValidInput(input: Value, canPickle: Value -> bool): (ok: bool)
    ensures ok <==> (input.NoneValue? ||
      (input.Dict? && forall i :: 0 <= i < |input.items| ==>
        input.items[i].key.Str? &&
        (input.items[i].value.TaskRef? || input.items[i].value.EntryRef? || canPickle(input.items[i].value))))
  {
    if input.NoneValue? then true
    else if !input.Dict? then false
    else
      ItemsPassMeansAll(input.items, InputTest(canPickle));
      ItemsPass(input.items, InputTest(canPickle))
  }

  /** `_is_valid_output`: None, or a dict with string keys whose values are
      entries or pickleable. */
  predicate IsValidOutput(output: Value, canPickle: Value -> bool): (ok: bool)
    ensures ok <==> (output.NoneValue? ||
      (output.Dict? && forall i :: 0 <= i < |output.items| ==>
        output.items[i].key.Str? && (output.items[i].value.EntryRef? || canPickle(output.items[i].value))))
  {
    if output.NoneValue? then true
    else if !output.Dict? then false
    else
      ItemsPassMeansAll(output.items, OutputTest(canPickle));
      ItemsPass(output.items, OutputTest(canPickle))
  }

  /** The loop decides exactly "every key is a string and every value is
      accepted". */
  lemma {:induction false} ItemsPassMeansAll(items: seq<Item>, accepted: Value -> bool)
    ensures ItemsPass(items, accepted) <==>
      forall i :: 0 <= i < |items| ==> items[i].key.Str? && accepted(items[i].value)
  {
    if items != [] {
      ItemsPassMeansAll(items[1..], accepted);
      assert forall i :: 0 < i < |items| ==> items[i] == items[1..][i - 1];
    }
  }

  /** `_is_valid_input` accepts None, rejects every non-dict, and rejects a
      dict as soon as one key is not a string. */
  lemma ValidInputShape(input: Value, canPickle: Value -> bool)
    ensures input.NoneValue? ==> IsValidInput(input, canPickle)
    ensures !input.NoneValue? && !input.Dict? ==> !IsValidInput(input, canPickle)
    ensures input.Dict? && (exists i :: 0 <= i < |input.items| && !input.items[i].key.Str?) ==>
      !IsValidInput(input, canPickle)
  {
    if input.Dict? {
      ItemsPassMeansAll(input.items, InputTest(canPickle));
    }
  }

  /** Whatever `_is_valid_output` accepts, `_is_valid_input` accepts too. */
  lemma ValidOutputIsValidInput(v: Value, canPickle: Value -> bool)
    requires IsValidOutput(v, canPickle)
    ensures IsValidInput(v, canPickle)
  {
    if v.Dict? {
      ItemsPassMeansAll(v.items, OutputTest(canPickle));
      ItemsPassMeansAll(v.items, InputTest(canPickle));
    }
  }

  // ----- the JSON object that is hashed -----

  function Names(fields: seq<Field>): seq<string>
  {
    if fields == [] then [] else [fields[0].name] + Names(fields[1..])
  }

  predicate Distinct(names: seq<string>)
  {
    forall i, j :: 0 <= i < j < |names| ==> names[i] != names[j]
  }

  /** The digest stored under `name`, if any. */
  function Lookup(fields: seq<Field>, name: string): Option<Digest>
  {
    if fields == [] then None
    else if fields[0].name == name then Some(fields[0].digest)
    else Lookup(fields[1..], name)
  }

  /** `ret_dict[name] = digest`: an existing key keeps its place and gets
      the new digest; a new key goes last. */
  function SetField(fields: seq<Field>, name: string, digest: Digest): seq<Field>
  {
    if fields == [] then [Field(name, digest)]
    else if fields[0].name == name then [Field(name, digest)] + fields[1..]
    else [fields[0]] + SetField(fields[1..], name, digest)
  }

  predicate KeysAreStrings(items: seq<Item>)
  {
    forall i :: 0 <= i < |items| ==> items[i].key.Str?
  }

  function KeyNames(items: seq<Item>): seq<string>
    requires KeysAreStrings(items)
  {
    if items == [] then [] else [items[0].key.s] + KeyNames(items[1..])
  }

  /** What one input value contributes: a task its hash, an entry the digest
      of its content, anything else the digest of its pickle. */
  function ValueDigest(v: Value, files: FileMap, canPickle: Value -> bool): (r: Result<Digest>)
    ensures r.Err? ==> v.TaskRef? || (v.EntryRef? && r.error == FileNotFoundError)
    ensures r.Err? ==> r.error == ValueError || r.error == FileNotFoundError
    ensures v.TaskRef? && r.Ok? ==> r.value.TaskDigest?
    decreases v, 0
  {
    if v.TaskRef? then Hash(v.task, files, canPickle)
    else if v.EntryRef? then FileObjects.EntryDigest(v.entry, files)
    else Ok(PickleDigest(v))
  }

  /** `_dump_input`, as the sequence of fields of the JSON object. */
  function DumpInput(t: TaskSpec, files: FileMap, canPickle: Value -> bool): (r: Result<seq<Field>>)
    ensures !IsValidInput(t.input, canPickle) ==> r == Err(ValueError)
    ensures r.Err? ==> r.error == ValueError || r.error == FileNotFoundError
    ensures r.Ok? ==> [SourceKey] <= Names(r.value)
    decreases t, 1
  {
    if !IsValidInput(t.input, canPickle) then Err(ValueError)
    else
      var base := [Field(SourceKey, SourceDigest(t.source))];
      if t.input.NoneValue? then Ok(base)
      else
        ItemsPassMeansAll(t.input.items, InputTest(canPickle));
        DumpItems(t, 0, base, files, canPickle)
  }

  /** The loop of `_dump_input` from item `i` on, `acc` being the fields
      written so far. */
  function DumpItems(t: TaskSpec, i: nat, acc: seq<Field>, files: FileMap, canPickle: Value -> bool)
    : (r: Result<seq<Field>>)
    requires t.input.Dict? && i <= |t.input.items| && KeysAreStrings(t.input.items)
    ensures r.Err? ==> r.error == ValueError || r.error == FileNotFoundError
    ensures r.Ok? ==> Names(acc) <= Names(r.value)
    decreases t, 0, |t.input.items| - i
  {
    if i == |t.input.items| then Ok(acc)
    else
      var item := t.input.items[i];
      var digest :- ValueDigest(item.value, files, canPickle);
      SetFieldNames(acc, item.key.s, digest);
      DumpItems(t, i + 1, SetField(acc, item.key.s, digest), files, canPickle)
  }

  /** The `hash` property: the digest of the dump. */
  function Hash(t: TaskSpec, files: FileMap, canPickle: Value -> bool): (r: Result<Digest>)
    ensures !IsValidInput(t.input, canPickle) ==> r == Err(ValueError)
    ensures r.Err? ==> r.error == ValueError || r.error == FileNotFoundError
    ensures r.Ok? ==> r.value.TaskDigest? && [SourceKey] <= Names(r.value.dump)
    decreases t, 2
  {
    var dump :- DumpInput(t, files, canPickle);
    Ok(TaskDigest(dump))
  }

  // ----- lemmas about fields -----

  lemma {:induction false} SetFieldLookup(fields: seq<Field>, name: string, digest: Digest, other: string)
    ensures Lookup(SetField(fields, name, digest), other) ==
      if other == name then Some(digest) else Lookup(fields, other)
  {
    if fields != [] && fields[0].name != name {
      SetFieldLookup(fields[1..], name, digest, other);
    }
  }

  lemma {:induction false} SetFieldNames(fields: seq<Field>, name: string, digest: Digest)
    ensures name in Names(fields) ==> Names(SetField(fields, name, digest)) == Names(fields)
    ensures name !in Names(fields) ==> Names(SetField(fields, name, digest)) == Names(fields) + [name]
  {
    if fields != [] && fields[0].name != name {
      SetFieldNames(fields[1..], name, digest);
    }
  }

  lemma {:induction false} KeyNamesSuffix(items: seq<Item>, i: nat)
    requires KeysAreStrings(items) && i < |items|
    ensures KeyNames(items[i..]) == [items[i].key.s] + KeyNames(items[i + 1..])
  {
    assert items[i..][1..] == items[i + 1..];
  }

  lemma {:induction false} KeyNamesMembers(items: seq<Item>, name: string)
    requires KeysAreStrings(items)
    ensures name in KeyNames(items) <==> exists k :: 0 <= k < |items| && items[k].key == Str(name)
  {
    if items != [] {
      KeyNamesMembers(items[1..], name);
      assert forall k :: 0 < k < |items| ==> items[k] == items[1..][k - 1];
      if exists k :: 0 <= k < |items[1..]| && items[1..][k].key == Str(name) {
        var k :| 0 <= k < |items[1..]| && items[1..][k].key == Str(name);
        assert items[k + 1].key == Str(name);
      }
    }
  }

  /** With distinct keys, item `i`'s key does not come again later. */
  lemma KeyNotLater(items: seq<Item>, i: nat)
    requires KeysAreStrings(items) && DistinctKeys(items) && i < |items|
    ensures items[i].key.s !in KeyNames(items[i + 1..])
  {
    var later := items[i + 1..];
    KeyNamesMembers(later, items[i].key.s);
    forall k | 0 <= k < |later|
      ensures later[k].key != Str(items[i].key.s)
    {
      assert later[k] == items[i + 1 + k];
    }
  }

  lemma SetFieldKeepsDistinct(fields: seq<Field>, name: string, digest: Digest)
    requires Distinct(Names(fields))
    ensures Distinct(Names(SetField(fields, name, digest)))
  {
    SetFieldNames(fields, name, digest);
  }

  /** The loop of `_dump_input` from item `i` on adds exactly the remaining
      keys: new ones go last, in input order, and no name appears twice. */
  lemma {:induction false} DumpItemsNames(t: TaskSpec, i: nat, acc: seq<Field>, files: FileMap, canPickle: Value -> bool)
    requires t.input.Dict? && i <= |t.input.items| && KeysAreStrings(t.input.items)
    requires DistinctKeys(t.input.items) && Distinct(Names(acc))
    requires DumpItems(t, i, acc, files, canPickle).Ok?
    ensures var out := DumpItems(t, i, acc, files, canPickle).value;
      var rest := KeyNames(t.input.items[i..]);
      Distinct(Names(out)) &&
      (forall name :: name in Names(out) <==> name in Names(acc) || name in rest) &&
      ((forall name :: name in rest ==> name !in Names(acc)) ==> Names(out) == Names(acc) + rest)
    decreases |t.input.items| - i
  {
    var items := t.input.items;
    if i == |items| {
      assert items[i..] == [];
    } else {
      var item := items[i];
      var digest := ValueDigest(item.value, files, canPickle).value;
      var acc' := SetField(acc, item.key.s, digest);
      SetFieldNames(acc, item.key.s, digest);
      SetFieldKeepsDistinct(acc, item.key.s, digest);
      DumpItemsNames(t, i + 1, acc', files, canPickle);
      KeyNamesSuffix(items, i);
      KeyNotLater(items, i);
    }
  }

  /** The loop of `_dump_input` from item `i` on stores each remaining key
      with its value's digest and leaves every other field as it was. */
  lemma {:induction false} DumpItemsLookups(t: TaskSpec, i: nat, acc: seq<Field>, files: FileMap, canPickle: Value -> bool)
    requires t.input.Dict? && i <= |t.input.items| && KeysAreStrings(t.input.items)
    requires DistinctKeys(t.input.items)
    requires DumpItems(t, i, acc, files, canPickle).Ok?
    ensures var out := DumpItems(t, i, acc, files, canPickle).value;
      var rest := KeyNames(t.input.items[i..]);
      (forall k :: i <= k < |t.input.items| ==>
        ValueDigest(t.input.items[k].value, files, canPickle).Ok? &&
        Lookup(out, t.input.items[k].key.s) == Some(ValueDigest(t.input.items[k].value, files, canPickle).value)) &&
      (forall name :: name !in rest ==> Lookup(out, name) == Lookup(acc, name))
    decreases |t.input.items| - i
  {
    var items := t.input.items;
    if i == |items| {
      assert items[i..] == [];
    } else {
      var item := items[i];
      var digest := ValueDigest(item.value, files, canPickle).value;
      var acc' := SetField(acc, item.key.s, digest);
      forall name ensures Lookup(acc', name) == if name == item.key.s then Some(digest) else Lookup(acc, name) {
        SetFieldLookup(acc, item.key.s, digest, name);
      }
      DumpItemsLookups(t, i + 1, acc', files, canPickle);
      KeyNamesSuffix(items, i);
      KeyNotLater(items, i);
    }
  }

  /** The names of `names` that are not in `seen`, in their order. */
  function Unseen(names: seq<string>, seen: seq<string>): seq<string>
  {
    if names == [] then []
    else if names[0] in seen then Unseen(names[1..], seen)
    else [names[0]] + Unseen(names[1..], seen)
  }

  lemma {:induction false} UnseenIgnoresAbsent(names: seq<string>, seen: seq<string>, name: string)
    requires name !in names
    ensures Unseen(names, seen + [name]) == Unseen(names, seen)
  {
    if names != [] {
      UnseenIgnoresAbsent(names[1..], seen, name);
    }
  }

  /** The key order the loop of `_dump_input` leaves from item `i` on: the
      keys already present keep their places, and the remaining keys not
      yet present follow in input order. */
  lemma {:induction false} DumpItemsOrder(t: TaskSpec, i: nat, acc: seq<Field>, files: FileMap, canPickle: Value -> bool)
    requires t.input.Dict? && i <= |t.input.items| && KeysAreStrings(t.input.items)
    requires DistinctKeys(t.input.items)
    requires DumpItems(t, i, acc, files, canPickle).Ok?
    ensures Names(DumpItems(t, i, acc, files, canPickle).value) ==
      Names(acc) + Unseen(KeyNames(t.input.items[i..]), Names(acc))
    decreases |t.input.items| - i
  {
    var items := t.input.items;
    if i == |items| {
      assert items[i..] == [];
    } else {
      var item := items[i];
      var digest := ValueDigest(item.value, files, canPickle).value;
      var acc' := SetField(acc, item.key.s, digest);
      SetFieldNames(acc, item.key.s, digest);
      DumpItemsOrder(t, i + 1, acc', files, canPickle);
      KeyNamesSuffix(items, i);
      KeyNotLater(items, i);
      if item.key.s !in Names(acc) {
        UnseenIgnoresAbsent(KeyNames(items[i + 1..]), Names(acc), item.key.s);
      }
    }
  }

  /** `_dump_input` on None, and on input that fails validation. */
  lemma DumpInputEdgeCases(t: TaskSpec, files: FileMap, canPickle: Value -> bool)
    ensures !IsValidInput(t.input, canPickle) ==> DumpInput(t, files, canPickle) == Err(ValueError)
    ensures t.input.NoneValue? ==>
      DumpInput(t, files, canPickle) == Ok([Field(SourceKey, SourceDigest(t.source))])
  {
  }

  /** `_dump_input` on a valid dict: the source key plus one field per input
      key, holding that value's digest. The source field always comes first,
      the other keys follow in input order, and the source field keeps the
      source digest unless an input key overwrites it. */
  lemma DumpOfDict(t: TaskSpec, files: FileMap, canPickle: Value -> bool)
    requires t.input.Dict? && IsValidInput(t.input, canPickle) && DistinctKeys(t.input.items)
    requires DumpInput(t, files, canPickle).Ok?
    ensures KeysAreStrings(t.input.items)
    ensures var out := DumpInput(t, files, canPickle).value;
      var keys := KeyNames(t.input.items);
      Distinct(Names(out)) &&
      (forall name :: name in Names(out) <==> name == SourceKey || name in keys) &&
      (forall k :: 0 <= k < |t.input.items| ==>
        ValueDigest(t.input.items[k].value, files, canPickle).Ok? &&
        Lookup(out, t.input.items[k].key.s) == Some(ValueDigest(t.input.items[k].value, files, canPickle).value)) &&
      Names(out) == [SourceKey] + Unseen(keys, [SourceKey]) &&
      (SourceKey !in keys ==>
        Lookup(out, SourceKey) == Some(SourceDigest(t.source)) && Names(out) == [SourceKey] + keys)
  {
    var items := t.input.items;
    ItemsPassMeansAll(items, InputTest(canPickle));
    var base := [Field(SourceKey, SourceDigest(t.source))];
    assert Names(base) == [SourceKey];
    assert items[0..] == items;
    DumpItemsNames(t, 0, base, files, canPickle);
    DumpItemsLookups(t, 0, base, files, canPickle);
    DumpItemsOrder(t, 0, base, files, canPickle);
  }

  /** The loop succeeds exactly when every remaining value's digest can be
      taken. */
  lemma {:induction false} DumpItemsSucceeds(t: TaskSpec, i: nat, acc: seq<Field>, files: FileMap, canPickle: Value -> bool)
    requires t.input.Dict? && i <= |t.input.items| && KeysAreStrings(t.input.items)
    ensures DumpItems(t, i, acc, files, canPickle).Ok? <==>
      forall k :: i <= k < |t.input.items| ==> ValueDigest(t.input.items[k].value, files, canPickle).Ok?
    decreases |t.input.items| - i
  {
    if i < |t.input.items| {
      var item := t.input.items[i];
      var digest := ValueDigest(item.value, files, canPickle);
      if digest.Ok? {
        DumpItemsSucceeds(t, i + 1, SetField(acc, item.key.s, digest.value), files, canPickle);
      }
    }
  }

  /** A task's hash can be taken exactly when its input is valid and, for a
      dict, every value's digest can: a dependency whose hash fails, or a
      File whose source is missing, makes the dependent's hash fail. */
  lemma HashSucceeds(t: TaskSpec, files: FileMap, canPickle: Value -> bool)
    ensures Hash(t, files, canPickle).Ok? <==>
      IsValidInput(t.input, canPickle) &&
      (t.input.Dict? ==> forall k :: 0 <= k < |t.input.items| ==> ValueDigest(t.input.items[k].value, files, canPickle).Ok?)
  {
    if IsValidInput(t.input, canPickle) && t.input.Dict? {
      ItemsPassMeansAll(t.input.items, InputTest(canPickle));
      DumpItemsSucceeds(t, 0, [Field(SourceKey, SourceDigest(t.source))], files, canPickle);
    }
  }

  /** Two dict inputs that agree key by key, with values whose digests
      agree, give the same fields from item `i` on. */
  lemma {:induction false} DumpItemsCongruent(t1: TaskSpec, t2: TaskSpec, i: nat, acc: seq<Field>, files: FileMap, canPickle: Value -> bool)
    requires t1.input.Dict? && t2.input.Dict? && |t1.input.items| == |t2.input.items|
    requires i <= |t1.input.items| && KeysAreStrings(t1.input.items) && KeysAreStrings(t2.input.items)
    requires forall k :: 0 <= k < |t1.input.items| ==>
      t1.input.items[k].key == t2.input.items[k].key &&
      ValueDigest(t1.input.items[k].value, files, canPickle) == ValueDigest(t2.input.items[k].value, files, canPickle)
    ensures DumpItems(t1, i, acc, files, canPickle) == DumpItems(t2, i, acc, files, canPickle)
    decreases |t1.input.items| - i
  {
    if i < |t1.input.items| {
      var digest := ValueDigest(t1.input.items[i].value, files, canPickle);
      if digest.Ok? {
        DumpItemsCongruent(t1, t2, i + 1, SetField(acc, t1.input.items[i].key.s, digest.value), files, canPickle);
      }
    }
  }

  /** Merkle-style identity: a task's hash depends on its dependencies only
      through their hashes (and on entries only through their content
      digests). Two tasks with the same source whose inputs have the same
      keys in the same order and values with equal digests have equal
      hashes. */
  lemma HashFollowsDependencyHashes(t1: TaskSpec, t2: TaskSpec, files: FileMap, canPickle: Value -> bool)
    requires t1.source == t2.source
    requires t1.input.Dict? && t2.input.Dict? && |t1.input.items| == |t2.input.items|
    requires IsValidInput(t1.input, canPickle) && IsValidInput(t2.input, canPickle)
    requires forall k :: 0 <= k < |t1.input.items| ==>
      t1.input.items[k].key == t2.input.items[k].key &&
      ValueDigest(t1.input.items[k].value, files, canPickle) == ValueDigest(t2.input.items[k].value, files, canPickle)
    ensures Hash(t1, files, canPickle) == Hash(t2, files, canPickle)
  {
    ItemsPassMeansAll(t1.input.items, InputTest(canPickle));
    ItemsPassMeansAll(t2.input.items, InputTest(canPickle));
    DumpItemsCongruent(t1, t2, 0, [Field(SourceKey, SourceDigest(t1.source))], files, canPickle);
  }

  /** Content addressing: with digests free of collisions, two tasks whose
      inputs give some key values with different digests (a dependency
      with a different hash, say) have different hashes. */
  lemma HashSeparatesDependencies(t1: TaskSpec, t2: TaskSpec, j1: nat, j2: nat, files: FileMap, canPickle: Value -> bool)
    requires t1.input.Dict? && IsValidInput(t1.input, canPickle) && DistinctKeys(t1.input.items)
    requires t2.input.Dict? && IsValidInput(t2.input, canPickle) && DistinctKeys(t2.input.items)
    requires Hash(t1, files, canPickle).Ok? && Hash(t2, files, canPickle).Ok?
    requires j1 < |t1.input.items| && j2 < |t2.input.items|
    requires t1.input.items[j1].key == t2.input.items[j2].key
    requires ValueDigest(t1.input.items[j1].value, files, canPickle) != ValueDigest(t2.input.items[j2].value, files, canPickle)
    ensures Hash(t1, files, canPickle) != Hash(t2, files, canPickle)
  {
    DumpOfDict(t1, files, canPickle);
    DumpOfDict(t2, files, canPickle);
  }
}
