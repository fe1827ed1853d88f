/** `gather` (lazypp/utils.py): walks a nested structure of sequences and
    mappings, collects one awaitable per DummyOutput or task leaf, awaits
    them, then rebuilds a deep copy in which every DummyOutput leaf is
    replaced by its restored output. The structure is a value, so the deep
    copy is the value itself and the caller's structure never changes.
    `restore_output` lives in a module that is not part of this model; it
    is the parameter `restore`. */
module Gather {
  import opened Objects

  /** A Python object as `gather` sees it. `Text` is a str, which is itself
      a Sequence whose items are one-character strs. A `Sequence` is a list
      (`mutable`) or a tuple, bytes or range (not mutable). */
  datatype Node =
    | Sequence(items: seq<Node>, mutable: bool)
    | Mapping(entries: seq<Pair>)
    | Text(s: string)
    | DummyLeaf(handle: nat)
    | TaskLeaf(handle: nat)
    | Scalar(repr: string)
    | NoneLeaf

  datatype Pair = Pair(key: string, value: Node)

  /** `output.task()` for a DummyOutput, `output()` for a task. */
  datatype Awaitable = DummyTask(handle: nat) | TaskCall(handle: nat)

  // ----- what the walk collects -----

  /** A non-empty str makes both walks recurse on its first character
      forever, which Python stops with RecursionError. */
  predicate HasNonEmptyText(n: Node)
    decreases n, 0
  {
    match n
    case Sequence(items, _) => AnyNonEmptyText(items)
    case Mapping(entries) => AnyPairNonEmptyText(entries)
    case Text(s) => s != []
    case _ => false
  }

  predicate AnyNonEmptyText(items: seq<Node>)
    decreases items, 1
  {
    exists i :: 0 <= i < |items| && HasNonEmptyText(items[i])
  }

  predicate AnyPairNonEmptyText(entries: seq<Pair>)
    decreases entries, 1
  {
    exists i :: 0 <= i < |entries| && HasNonEmptyText(entries[i].value)
  }

  /** The structure holds a DummyOutput or a task somewhere. */
  predicate Awaits(n: Node)
    decreases n, 0
  {
    match n
    case Sequence(items, _) => AnyAwaits(items)
    case Mapping(entries) => PairsAwait(entries)
    case DummyLeaf(_) => true
    case TaskLeaf(_) => true
    case _ => false
  }

  predicate AnyAwaits(items: seq<Node>)
    decreases items, 1
  {
    exists i :: 0 <= i < |items| && Awaits(items[i])
  }

  predicate PairsAwait(entries: seq<Pair>)
    decreases entries, 1
  {
    exists i :: 0 <= i < |entries| && Awaits(entries[i].value)
  }

  /** The awaitables of a structure, depth first, left to right: none
      exactly when it holds no DummyOutput and no task. */
  function Collected(n: Node): (r: seq<Awaitable>)
    ensures r == [] <==> !Awaits(n)
    decreases n, 0
  {
    match n
    case Sequence(items, _) =>
      CollectedAllEmptyIff(items);
      CollectedAll(items)
    case Mapping(entries) =>
      CollectedPairsEmptyIff(entries);
      CollectedPairs(entries)
    case DummyLeaf(h) => [DummyTask(h)]
    case TaskLeaf(h) => [TaskCall(h)]
    case _ => []
  }

  function CollectedAll(items: seq<Node>): seq<Awaitable>
    decreases items, 1
  {
    if items == [] then [] else CollectedAll(items[..|items| - 1]) + Collected(items[|items| - 1])
  }

  function CollectedPairs(entries: seq<Pair>): seq<Awaitable>
    decreases entries, 1
  {
    if entries == [] then []
    else CollectedPairs(entries[..|entries| - 1]) + Collected(entries[|entries| - 1].value)
  }

  lemma {:induction false} CollectedAllEmptyIff(items: seq<Node>)
    ensures CollectedAll(items) == [] <==> !AnyAwaits(items)
    decreases items, 2
  {
    if items != [] {
      var init := items[..|items| - 1];
      CollectedAllEmptyIff(init);
      assert forall i :: 0 <= i < |init| ==> init[i] == items[i];
    }
  }

  lemma {:induction false} CollectedPairsEmptyIff(entries: seq<Pair>)
    ensures CollectedPairs(entries) == [] <==> !PairsAwait(entries)
    decreases entries, 2
  {
    if entries != [] {
      var init := entries[..|entries| - 1];
      CollectedPairsEmptyIff(init);
      assert forall i :: 0 <= i < |init| ==> init[i] == entries[i];
    }
  }

  /** `_gather_task`: appends to `tasks` the awaitables of `n`. The
      `visited` set is never added to, so its test never stops the walk. */
  method GatherTask(n: Node, tasks: seq<Awaitable>) returns (r: Result<seq<Awaitable>>)
    ensures HasNonEmptyText(n) ==> r == Err(RecursionError)
    ensures !HasNonEmptyText(n) ==> r == Ok(tasks + Collected(n))
    decreases n, 1
  {
    match n {
      case Sequence(items, _) =>
        r := GatherItems(items, tasks);
      case Mapping(entries) =>
        r := GatherEntries(entries, tasks);
      case Text(s) =>
        if s != [] {
          return Err(RecursionError);
        }
        assert tasks + Collected(n) == tasks;
        return Ok(tasks);
      case DummyLeaf(h) =>
        return Ok(tasks + [DummyTask(h)]);
      case TaskLeaf(h) =>
        return Ok(tasks + [TaskCall(h)]);
      case Scalar(_) =>
        assert tasks + Collected(n) == tasks;
        return Ok(tasks);
      case NoneLeaf =>
        assert tasks + Collected(n) == tasks;
        return Ok(tasks);
    }
  }

  /** One step of the walk over a sequence's items. */
  lemma GatherItemsStep(items: seq<Node>, i: nat)
    requires i < |items|
    ensures HasNonEmptyText(items[i]) ==> AnyNonEmptyText(items)
    ensures !AnyNonEmptyText(items[..i]) && !HasNonEmptyText(items[i]) ==> !AnyNonEmptyText(items[..i + 1])
    ensures CollectedAll(items[..i + 1]) == CollectedAll(items[..i]) + Collected(items[i])
  {
    assert items[..i + 1][..i] == items[..i];
    assert items[..i + 1][i] == items[i];
    if HasNonEmptyText(items[i]) {
      assert AnyNonEmptyText(items);
    }
    if !AnyNonEmptyText(items[..i]) && !HasNonEmptyText(items[i]) {
      var longer := items[..i + 1];
      forall j | 0 <= j < |longer|
        ensures !HasNonEmptyText(longer[j])
      {
        if j < i {
          assert longer[j] == items[..i][j];
        }
      }
    }
  }

  /** One step of the walk over a mapping's values. */
  lemma GatherEntriesStep(entries: seq<Pair>, i: nat)
    requires i < |entries|
    ensures HasNonEmptyText(entries[i].value) ==> AnyPairNonEmptyText(entries)
    ensures !AnyPairNonEmptyText(entries[..i]) && !HasNonEmptyText(entries[i].value) ==>
      !AnyPairNonEmptyText(entries[..i + 1])
    ensures CollectedPairs(entries[..i + 1]) == CollectedPairs(entries[..i]) + Collected(entries[i].value)
  {
    assert entries[..i + 1][..i] == entries[..i];
    assert entries[..i + 1][i] == entries[i];
    if HasNonEmptyText(entries[i].value) {
      assert AnyPairNonEmptyText(entries);
    }
    if !AnyPairNonEmptyText(entries[..i]) && !HasNonEmptyText(entries[i].value) {
      var longer := entries[..i + 1];
      forall j | 0 <= j < |longer|
        ensures !HasNonEmptyText(longer[j].value)
      {
        if j < i {
          assert longer[j] == entries[..i][j];
        }
      }
    }
  }

  /** The Sequence branch: each item in turn. */
  method GatherItems(items: seq<Node>, tasks: seq<Awaitable>) returns (r: Result<seq<Awaitable>>)
    ensures AnyNonEmptyText(items) ==> r == Err(RecursionError)
    ensures !AnyNonEmptyText(items) ==> r == Ok(tasks + CollectedAll(items))
    decreases items, 2
  {
    var acc := tasks;
    var i := 0;
    while i < |items|
      invariant 0 <= i <= |items|
      invariant !AnyNonEmptyText(items[..i])
      invariant acc == tasks + CollectedAll(items[..i])
    {
      var step := GatherTask(items[i], acc);
      GatherItemsStep(items, i);
      if step.Err? {
        return Err(RecursionError);
      }
      acc := step.value;
      i := i + 1;
    }
    assert items[..i] == items;
    return Ok(acc);
  }

  /** The Mapping branch: each value in turn. */
  method GatherEntries(entries: seq<Pair>, tasks: seq<Awaitable>) returns (r: Result<seq<Awaitable>>)
    ensures AnyPairNonEmptyText(entries) ==> r == Err(RecursionError)
    ensures !AnyPairNonEmptyText(entries) ==> r == Ok(tasks + CollectedPairs(entries))
    decreases entries, 2
  {
    var acc := tasks;
    var i := 0;
    while i < |entries|
      invariant 0 <= i <= |entries|
      invariant !AnyPairNonEmptyText(entries[..i])
      invariant acc == tasks + CollectedPairs(entries[..i])
    {
      var step := GatherTask(entries[i].value, acc);
      GatherEntriesStep(entries, i);
      if step.Err? {
        return Err(RecursionError);
      }
      acc := step.value;
      i := i + 1;
    }
    assert entries[..i] == entries;
    return Ok(acc);
  }

  // ----- an independent account: the leaves in order -----

  predicate IsLeaf(n: Node)
  {
    !n.Sequence? && !n.Mapping?
  }

  /** Every leaf occurrence, depth first, left to right. */
  function Leaves(n: Node): seq<Node>
    decreases n, 0
  {
    match n
    case Sequence(items, _) => LeavesAll(items)
    case Mapping(entries) => LeavesPairs(entries)
    case _ => [n]
  }

  function LeavesAll(items: seq<Node>): seq<Node>
    decreases items, 1
  {
    if items == [] then [] else LeavesAll(items[..|items| - 1]) + Leaves(items[|items| - 1])
  }

  function LeavesPairs(entries: seq<Pair>): seq<Node>
    decreases entries, 1
  {
    if entries == [] then [] else LeavesPairs(entries[..|entries| - 1]) + Leaves(entries[|entries| - 1].value)
  }

  /** One awaitable per DummyOutput or task leaf, nothing for other leaves. */
  function AwaitablesOf(leaves: seq<Node>): seq<Awaitable>
  {
    if leaves == [] then []
    else
      var last := leaves[|leaves| - 1];
      AwaitablesOf(leaves[..|leaves| - 1]) +
        (match last
         case DummyLeaf(h) => [DummyTask(h)]
         case TaskLeaf(h) => [TaskCall(h)]
         case _ => [])
  }

  lemma {:induction false} AwaitablesOfAppend(a: seq<Node>, b: seq<Node>)
    ensures AwaitablesOf(a + b) == AwaitablesOf(a) + AwaitablesOf(b)
    decreases |b|
  {
    if b != [] {
      assert (a + b)[..|a + b| - 1] == a + b[..|b| - 1];
      AwaitablesOfAppend(a, b[..|b| - 1]);
    } else {
      assert a + b == a;
    }
  }

  /** The walk collects exactly one awaitable per DummyOutput or task leaf
      occurrence, in depth-first left-to-right order: other leaves add
      nothing, no occurrence is skipped, and one reached along two paths is
      collected twice. */
  lemma {:induction false} CollectedAreLeafAwaitables(n: Node)
    ensures Collected(n) == AwaitablesOf(Leaves(n))
    decreases n, 0
  {
    match n {
      case Sequence(items, _) => CollectedAllAreLeafAwaitables(items);
      case Mapping(entries) => CollectedPairsAreLeafAwaitables(entries);
      case _ =>
        assert Leaves(n) == [n];
        assert [n][..0] == [];
    }
  }

  lemma {:induction false} CollectedAllAreLeafAwaitables(items: seq<Node>)
    ensures CollectedAll(items) == AwaitablesOf(LeavesAll(items))
    decreases items, 1
  {
    if items != [] {
      var init := items[..|items| - 1];
      CollectedAllAreLeafAwaitables(init);
      CollectedAreLeafAwaitables(items[|items| - 1]);
      AwaitablesOfAppend(LeavesAll(init), Leaves(items[|items| - 1]));
    }
  }

  lemma {:induction false} CollectedPairsAreLeafAwaitables(entries: seq<Pair>)
    ensures CollectedPairs(entries) == AwaitablesOf(LeavesPairs(entries))
    decreases entries, 1
  {
    if entries != [] {
      var init := entries[..|entries| - 1];
      CollectedPairsAreLeafAwaitables(init);
      CollectedAreLeafAwaitables(entries[|entries| - 1].value);
      AwaitablesOfAppend(LeavesPairs(init), Leaves(entries[|entries| - 1].value));
    }
  }

  // ----- rebuilding the copy -----

  /** `_restore_dummy_output` on the copy of `n`: each item is restored and
      then assigned back; the first assignment into a tuple, bytes or range
      raises TypeError, and a DummyOutput leaf becomes `restore(handle)`. */
  function Restored(n: Node, restore: nat -> Node): (r: Result<Node>)
    ensures r.Err? ==> r.error == TypeError || r.error == RecursionError
    ensures r.Ok? && !Awaits(n) ==> r.value == n
    decreases n, 0
  {
    match n
    case Sequence(items, mutable) =>
      var rs :- RestoredAll(items, mutable, restore);
      Ok(Sequence(rs, mutable))
    case Mapping(entries) =>
      var rs :- RestoredPairs(entries, restore);
      Ok(Mapping(rs))
    case Text(s) => if s != [] then Err(RecursionError) else Ok(n)
    case DummyLeaf(h) => Ok(restore(h))
    case _ => Ok(n)
  }

  function RestoredAll(items: seq<Node>, mutable: bool, restore: nat -> Node): (r: Result<seq<Node>>)
    ensures r.Err? ==> r.error == TypeError || r.error == RecursionError
    ensures r.Ok? && !AnyAwaits(items) ==> r.value == items
    decreases items, 1
  {
    if items == [] then Ok([])
    else
      assert forall i :: 0 <= i < |items| - 1 ==> items[1..][i] == items[i + 1];
      var first :- Restored(items[0], restore);
      if !mutable then Err(TypeError)
      else
        var rest :- RestoredAll(items[1..], mutable, restore);
        Ok([first] + rest)
  }

  function RestoredPairs(entries: seq<Pair>, restore: nat -> Node): (r: Result<seq<Pair>>)
    ensures r.Err? ==> r.error == TypeError || r.error == RecursionError
    ensures r.Ok? && !PairsAwait(entries) ==> r.value == entries
    decreases entries, 1
  {
    if entries == [] then Ok([])
    else
      assert forall i :: 0 <= i < |entries| - 1 ==> entries[1..][i] == entries[i + 1];
      var first :- Restored(entries[0].value, restore);
      var rest :- RestoredPairs(entries[1..], restore);
      Ok([Pair(entries[0].key, first)] + rest)
  }

  lemma {:induction false} RestoredAllPrefix(items: seq<Node>, i: nat, restore: nat -> Node)
    requires i < |items| && RestoredAll(items[..i], true, restore).Ok? && Restored(items[i], restore).Ok?
    ensures RestoredAll(items[..i + 1], true, restore) ==
      Ok(RestoredAll(items[..i], true, restore).value + [Restored(items[i], restore).value])
    decreases i
  {
    if i > 0 {
      var tail := items[1..];
      assert items[..i + 1][1..] == tail[..i];
      assert items[..i][1..] == tail[..i - 1];
      assert items[..i + 1][0] == items[..i][0] == items[0];
      assert tail[i - 1] == items[i];
      RestoredAllPrefix(tail, i - 1, restore);
      var first := Restored(items[0], restore).value;
      var x := Restored(items[i], restore).value;
      var mid := RestoredAll(tail[..i - 1], true, restore).value;
      assert RestoredAll(items[..i], true, restore).value == [first] + mid;
      assert RestoredAll(items[..i + 1], true, restore).value == [first] + (mid + [x]);
      assert [first] + (mid + [x]) == ([first] + mid) + [x];
    } else {
      assert items[..1][1..] == [];
      assert items[..1][0] == items[0];
      assert RestoredAll(items[..1][1..], true, restore) == Ok([]);
      var first := Restored(items[0], restore).value;
      assert RestoredAll(items[..1], true, restore) == Ok([first] + []);
      assert [first] + [] == RestoredAll(items[..0], true, restore).value + [first];
    }
  }

  lemma {:induction false} RestoredPairsPrefix(entries: seq<Pair>, i: nat, restore: nat -> Node)
    requires i < |entries| && RestoredPairs(entries[..i], restore).Ok? && Restored(entries[i].value, restore).Ok?
    ensures RestoredPairs(entries[..i + 1], restore) ==
      Ok(RestoredPairs(entries[..i], restore).value + [Pair(entries[i].key, Restored(entries[i].value, restore).value)])
    decreases i
  {
    if i > 0 {
      var tail := entries[1..];
      assert entries[..i + 1][1..] == tail[..i];
      assert entries[..i][1..] == tail[..i - 1];
      assert entries[..i + 1][0] == entries[..i][0] == entries[0];
      assert tail[i - 1] == entries[i];
      RestoredPairsPrefix(tail, i - 1, restore);
      var first := Pair(entries[0].key, Restored(entries[0].value, restore).value);
      var x := Pair(entries[i].key, Restored(entries[i].value, restore).value);
      var mid := RestoredPairs(tail[..i - 1], restore).value;
      assert RestoredPairs(entries[..i], restore).value == [first] + mid;
      assert RestoredPairs(entries[..i + 1], restore).value == [first] + (mid + [x]);
      assert [first] + (mid + [x]) == ([first] + mid) + [x];
    } else {
      assert entries[..1][1..] == [];
      assert entries[..1][0] == entries[0];
      assert RestoredPairs(entries[..1][1..], restore) == Ok([]);
      var first := Pair(entries[0].key, Restored(entries[0].value, restore).value);
      assert RestoredPairs(entries[..1], restore) == Ok([first] + []);
      assert [first] + [] == RestoredPairs(entries[..0], restore).value + [first];
    }
  }

  lemma {:induction false} RestoredAllStops(items: seq<Node>, i: nat, restore: nat -> Node)
    requires i < |items| && RestoredAll(items[..i], true, restore).Ok? && Restored(items[i], restore).Err?
    ensures RestoredAll(items, true, restore) == Err(Restored(items[i], restore).error)
    decreases i
  {
    if i > 0 {
      assert items[..i][1..] == items[1..][..i - 1];
      RestoredAllStops(items[1..], i - 1, restore);
    }
  }

  lemma {:induction false} RestoredPairsStops(entries: seq<Pair>, i: nat, restore: nat -> Node)
    requires i < |entries| && RestoredPairs(entries[..i], restore).Ok? && Restored(entries[i].value, restore).Err?
    ensures RestoredPairs(entries, restore) == Err(Restored(entries[i].value, restore).error)
    decreases i
  {
    if i > 0 {
      assert entries[..i][1..] == entries[1..][..i - 1];
      RestoredPairsStops(entries[1..], i - 1, restore);
    }
  }

  /** One step of the Sequence loop: assigning the restored item at `i`
      extends the restored prefix by one item. */
  lemma RestoredAllStep(items: seq<Node>, i: nat, restore: nat -> Node, ret: seq<Node>)
    requires i < |items| && |ret| == |items|
    requires RestoredAll(items[..i], true, restore).Ok? && Restored(items[i], restore).Ok?
    requires ret == RestoredAll(items[..i], true, restore).value + items[i..]
    ensures RestoredAll(items[..i + 1], true, restore).Ok?
    ensures ret[i := Restored(items[i], restore).value] ==
      RestoredAll(items[..i + 1], true, restore).value + items[i + 1..]
  {
    RestoredAllPrefix(items, i, restore);
    assert items[i..] == [items[i]] + items[i + 1..];
  }

  /** One step of the Mapping loop: assigning the restored value at `i`
      extends the restored prefix by one entry. */
  lemma RestoredPairsStep(entries: seq<Pair>, i: nat, restore: nat -> Node, ret: seq<Pair>)
    requires i < |entries| && |ret| == |entries|
    requires RestoredPairs(entries[..i], restore).Ok? && Restored(entries[i].value, restore).Ok?
    requires ret == RestoredPairs(entries[..i], restore).value + entries[i..]
    ensures RestoredPairs(entries[..i + 1], restore).Ok?
    ensures ret[i := Pair(entries[i].key, Restored(entries[i].value, restore).value)] ==
      RestoredPairs(entries[..i + 1], restore).value + entries[i + 1..]
  {
    RestoredPairsPrefix(entries, i, restore);
    assert entries[i..] == [entries[i]] + entries[i + 1..];
  }

  /** `_restore_dummy_output`, assigning each restored item back into the
      copy position by position. */
  method RestoreDummyOutput(n: Node, restore: nat -> Node) returns (r: Result<Node>)
    ensures r == Restored(n, restore)
    decreases n, 1
  {
    match n {
      case Sequence(items, mutable) =>
        var rs := RestoreItems(items, mutable, restore);
        if rs.Err? {
          return Err(rs.error);
        }
        return Ok(Sequence(rs.value, mutable));
      case Mapping(entries) =>
        var rs := RestoreEntries(entries, restore);
        if rs.Err? {
          return Err(rs.error);
        }
        return Ok(Mapping(rs.value));
      case Text(s) =>
        if s != [] {
          return Err(RecursionError);
        }
        return Ok(n);
      case DummyLeaf(h) =>
        return Ok(restore(h));
      case TaskLeaf(_) =>
        return Ok(n);
      case Scalar(_) =>
        return Ok(n);
      case NoneLeaf =>
        return Ok(n);
    }
  }

  /** The Sequence branch: `ret_obj[i] = ...` for each index in turn. */
  method RestoreItems(items: seq<Node>, mutable: bool, restore: nat -> Node) returns (r: Result<seq<Node>>)
    ensures r == RestoredAll(items, mutable, restore)
    decreases items, 2
  {
    var ret := items;
    var i := 0;
    while i < |items|
      invariant 0 <= i <= |items|
      invariant |ret| == |items|
      invariant i > 0 ==> mutable
      invariant RestoredAll(items[..i], true, restore).Ok?
      invariant ret == RestoredAll(items[..i], true, restore).value + items[i..]
    {
      var item := RestoreDummyOutput(items[i], restore);
      if item.Err? {
        RestoredAllStops(items, i, restore);
        return Err(item.error);
      }
      if !mutable {
        return Err(TypeError);
      }
      RestoredAllStep(items, i, restore, ret);
      ret := ret[i := item.value];
      i := i + 1;
    }
    assert items[..i] == items && items[i..] == [];
    var done := RestoredAll(items, true, restore);
    assert ret == done.value + [] == done.value;
    assert RestoredAll(items, mutable, restore) == done by {
      if items != [] {
        assert mutable;
      }
    }
    return Ok(ret);
  }

  /** The Mapping branch: `ret_obj[key] = ...` for each key in turn. */
  method RestoreEntries(entries: seq<Pair>, restore: nat -> Node) returns (r: Result<seq<Pair>>)
    ensures r == RestoredPairs(entries, restore)
    decreases entries, 2
  {
    var ret := entries;
    var i := 0;
    while i < |entries|
      invariant 0 <= i <= |entries|
      invariant |ret| == |entries|
      invariant RestoredPairs(entries[..i], restore).Ok?
      invariant ret == RestoredPairs(entries[..i], restore).value + entries[i..]
    {
      var item := RestoreDummyOutput(entries[i].value, restore);
      if item.Err? {
        RestoredPairsStops(entries, i, restore);
        return Err(item.error);
      }
      RestoredPairsStep(entries, i, restore, ret);
      ret := ret[i := Pair(entries[i].key, item.value)];
      i := i + 1;
    }
    assert entries[..i] == entries && entries[i..] == [];
    var done := RestoredPairs(entries, restore);
    assert ret == done.value + [] == done.value;
    return Ok(ret);
  }

  // ----- what restoring guarantees -----

  /** Restoring fails on a non-empty str (endless recursion) and on a
      non-empty tuple, bytes or range (item assignment), wherever they sit. */
  predicate Blocked(n: Node)
    decreases n, 0
  {
    match n
    case Sequence(items, mutable) => (items != [] && !mutable) || AnyBlocked(items)
    case Mapping(entries) => exists i :: 0 <= i < |entries| && Blocked(entries[i].value)
    case Text(s) => s != []
    case _ => false
  }

  predicate AnyBlocked(items: seq<Node>)
    decreases items, 1
  {
    exists i :: 0 <= i < |items| && Blocked(items[i])
  }

  /** Restoring succeeds exactly when nothing in the structure blocks it. */
  lemma {:induction false} RestoredOkIff(n: Node, restore: nat -> Node)
    ensures Restored(n, restore).Ok? <==> !Blocked(n)
    decreases n, 0
  {
    match n {
      case Sequence(items, mutable) => RestoredAllOkIff(items, mutable, restore);
      case Mapping(entries) => RestoredPairsOkIff(entries, restore);
      case _ =>
    }
  }

  lemma {:induction false} RestoredAllOkIff(items: seq<Node>, mutable: bool, restore: nat -> Node)
    ensures RestoredAll(items, mutable, restore).Ok? <==> (items == [] || mutable) && !AnyBlocked(items)
    decreases items, 1
  {
    if items != [] {
      RestoredOkIff(items[0], restore);
      if mutable {
        var rest := items[1..];
        RestoredAllOkIff(rest, mutable, restore);
        assert forall j :: 0 <= j < |rest| ==> rest[j] == items[j + 1];
        if AnyBlocked(items) && !Blocked(items[0]) {
          var i :| 0 <= i < |items| && Blocked(items[i]);
          assert Blocked(rest[i - 1]);
        }
      }
    }
  }

  lemma {:induction false} RestoredPairsOkIff(entries: seq<Pair>, restore: nat -> Node)
    ensures RestoredPairs(entries, restore).Ok? <==>
      forall i :: 0 <= i < |entries| ==> !Blocked(entries[i].value)
    decreases entries, 1
  {
    if entries != [] {
      RestoredOkIff(entries[0].value, restore);
      var rest := entries[1..];
      RestoredPairsOkIff(rest, restore);
      assert forall j :: 0 <= j < |rest| ==> rest[j] == entries[j + 1];
      if !RestoredPairs(entries, restore).Ok? && !Blocked(entries[0].value) {
        var j :| 0 <= j < |rest| && Blocked(rest[j].value);
        assert Blocked(entries[j + 1].value);
      }
    }
  }

  /** `m` is `n` with every DummyOutput leaf replaced by its restored
      output: containers keep their kind, length and keys, and every other
      leaf is kept as it is. */
  predicate Replaces(n: Node, m: Node, restore: nat -> Node)
    decreases n
  {
    match n
    case Sequence(items, mutable) =>
      m.Sequence? && m.mutable == mutable && |m.items| == |items| &&
      forall i :: 0 <= i < |items| ==> Replaces(items[i], m.items[i], restore)
    case Mapping(entries) =>
      m.Mapping? && |m.entries| == |entries| &&
      forall i :: 0 <= i < |entries| ==>
        m.entries[i].key == entries[i].key && Replaces(entries[i].value, m.entries[i].value, restore)
    case DummyLeaf(h) => m == restore(h)
    case _ => m == n
  }

  /** A successful restore replaces the DummyOutput leaves and nothing else. */
  lemma {:induction false} RestoredReplaces(n: Node, restore: nat -> Node)
    requires Restored(n, restore).Ok?
    ensures Replaces(n, Restored(n, restore).value, restore)
    decreases n, 0
  {
    match n {
      case Sequence(items, mutable) => RestoredAllReplaces(items, mutable, restore);
      case Mapping(entries) => RestoredPairsReplaces(entries, restore);
      case _ =>
    }
  }

  lemma {:induction false} RestoredAllReplaces(items: seq<Node>, mutable: bool, restore: nat -> Node)
    requires RestoredAll(items, mutable, restore).Ok?
    ensures var rs := RestoredAll(items, mutable, restore).value;
      |rs| == |items| && forall i :: 0 <= i < |items| ==> Replaces(items[i], rs[i], restore)
    decreases items, 1
  {
    if items != [] {
      var rest := items[1..];
      RestoredReplaces(items[0], restore);
      RestoredAllReplaces(rest, mutable, restore);
      var rs := RestoredAll(items, mutable, restore).value;
      var tail := RestoredAll(rest, mutable, restore).value;
      assert rs == [Restored(items[0], restore).value] + tail;
      forall i | 0 < i < |items|
        ensures Replaces(items[i], rs[i], restore)
      {
        assert items[i] == rest[i - 1] && rs[i] == tail[i - 1];
      }
    }
  }

  lemma {:induction false} RestoredPairsReplaces(entries: seq<Pair>, restore: nat -> Node)
    requires RestoredPairs(entries, restore).Ok?
    ensures var rs := RestoredPairs(entries, restore).value;
      |rs| == |entries| &&
      forall i :: 0 <= i < |entries| ==>
        rs[i].key == entries[i].key && Replaces(entries[i].value, rs[i].value, restore)
    decreases entries, 1
  {
    if entries != [] {
      var rest := entries[1..];
      RestoredReplaces(entries[0].value, restore);
      RestoredPairsReplaces(rest, restore);
      var rs := RestoredPairs(entries, restore).value;
      var tail := RestoredPairs(rest, restore).value;
      assert rs == [Pair(entries[0].key, Restored(entries[0].value, restore).value)] + tail;
      forall i | 0 < i < |entries|
        ensures rs[i].key == entries[i].key && Replaces(entries[i].value, rs[i].value, restore)
      {
        assert entries[i] == rest[i - 1] && rs[i] == tail[i - 1];
      }
    }
  }

  /** At most one structure replaces the dummies of `n`, so `Replaces`
      determines the restored copy completely. */
  lemma {:induction false} ReplacesIsUnique(n: Node, m1: Node, m2: Node, restore: nat -> Node)
    requires Replaces(n, m1, restore) && Replaces(n, m2, restore)
    ensures m1 == m2
    decreases n
  {
    match n {
      case Sequence(items, mutable) =>
        forall i | 0 <= i < |items|
          ensures m1.items[i] == m2.items[i]
        {
          ReplacesIsUnique(items[i], m1.items[i], m2.items[i], restore);
        }
        assert m1.items == m2.items;
      case Mapping(entries) =>
        forall i | 0 <= i < |entries|
          ensures m1.entries[i] == m2.entries[i]
        {
          ReplacesIsUnique(entries[i].value, m1.entries[i].value, m2.entries[i].value, restore);
        }
        assert m1.entries == m2.entries;
      case _ =>
    }
  }

  // ----- a list of outputs, as the reusable-file test gathers it -----

  function Dummies(hs: seq<nat>): seq<Node>
  {
    seq(|hs|, i requires 0 <= i < |hs| => DummyLeaf(hs[i]))
  }

  lemma {:induction false} CollectedDummies(hs: seq<nat>)
    ensures CollectedAll(Dummies(hs)) == seq(|hs|, i requires 0 <= i < |hs| => DummyTask(hs[i]))
  {
    if hs != [] {
      var init := hs[..|hs| - 1];
      assert Dummies(hs)[..|hs| - 1] == Dummies(init);
      CollectedDummies(init);
    }
  }

  /** Gathering a list of DummyOutputs awaits their tasks in list order and
      answers the list of their restored outputs. */
  lemma GatherOfDummies(hs: seq<nat>, restore: nat -> Node)
    ensures var n := Sequence(Dummies(hs), true);
      !HasNonEmptyText(n) &&
      Collected(n) == seq(|hs|, i requires 0 <= i < |hs| => DummyTask(hs[i])) &&
      Restored(n, restore) == Ok(Sequence(seq(|hs|, i requires 0 <= i < |hs| => restore(hs[i])), true))
  {
    var n := Sequence(Dummies(hs), true);
    CollectedDummies(hs);
    forall i | 0 <= i < |hs|
      ensures !HasNonEmptyText(Dummies(hs)[i]) && !Blocked(Dummies(hs)[i])
    {
      assert Dummies(hs)[i] == DummyLeaf(hs[i]);
    }
    assert !AnyBlocked(Dummies(hs)) && !AnyNonEmptyText(Dummies(hs));
    RestoredOkIff(n, restore);
    RestoredReplaces(n, restore);
    var m := Restored(n, restore).value;
    assert m.items == seq(|hs|, i requires 0 <= i < |hs| => restore(hs[i]));
  }

  /** `gather`: collects the awaitables (returned as `ran`, the ones
      awaited), then restores the copy; a None result raises ValueError. */
  method GatherOutput(n: Node, restore: nat -> Node) returns (ran: seq<Awaitable>, r: Result<Node>)
    ensures HasNonEmptyText(n) ==> ran == [] && r == Err(RecursionError)
    ensures !HasNonEmptyText(n) ==> ran == Collected(n)
    ensures !HasNonEmptyText(n) ==>
      r == match Restored(n, restore)
           case Err(e) => Err(e)
           case Ok(v) => if v == NoneLeaf then Err(ValueError) else Ok(v)
  {
    var tasks := GatherTask(n, []);
    if tasks.Err? {
      return [], Err(tasks.error);
    }
    ran := tasks.value;
    var ret := RestoreDummyOutput(n, restore);
    if ret.Err? {
      return ran, Err(ret.error);
    }
    if ret.value == NoneLeaf {
      return ran, Err(ValueError);
    }
    return ran, Ok(ret.value);
  }
}
