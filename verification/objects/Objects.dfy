/** Untyped Objects: insertion-ordered maps stored as a shape and one value per key. */
module Objects {
  import opened Shapes
  import opened Wrappers

  type Raw = nat
  const NONE_RAW: Raw := 1
  const WORD: nat := 0x1_0000_0000
  /** The bytes before a buffer's first slot. */
  const SLOTS: nat := 8
  const MIN_CAPACITY: nat := 4

  // ---- Insertion-ordered maps ----

  type Entries = seq<(string, Raw)>

  ghost function Lookup(entries: Entries, name: string): Option<Raw> {
    if entries == [] then None
    else if entries[0].0 == name then Some(entries[0].1)
    else Lookup(entries[1..], name)
  }

  ghost function Put(entries: Entries, name: string, value: Raw): Entries {
    if entries == [] then [(name, value)]
    else if entries[0].0 == name then [(name, value)] + entries[1..]
    else [entries[0]] + Put(entries[1..], name, value)
  }

  ghost function Without(entries: Entries, name: string): Entries {
    if entries == [] then []
    else if entries[0].0 == name then Without(entries[1..], name)
    else [entries[0]] + Without(entries[1..], name)
  }

  ghost predicate Distinct(keys: seq<string>) {
    forall i, j :: 0 <= i < j < |keys| ==> keys[i] != keys[j]
  }

  lemma {:induction false} PutLooksUp(entries: Entries, name: string, value: Raw, other: string)
    ensures Lookup(Put(entries, name, value), other) == if other == name then Some(value) else Lookup(entries, other)
  {
    if entries != [] && entries[0].0 != name {
      PutLooksUp(entries[1..], name, value, other);
    }
  }

  lemma {:induction false} WithoutLooksUp(entries: Entries, name: string, other: string)
    ensures Lookup(Without(entries, name), other) == if other == name then None else Lookup(entries, other)
  {
    if entries != [] {
      WithoutLooksUp(entries[1..], name, other);
    }
  }

  ghost function Names(entries: Entries): (names: seq<string>)
    ensures |names| == |entries| && forall i :: 0 <= i < |names| ==> names[i] == entries[i].0
  {
    seq(|entries|, i requires 0 <= i < |entries| => entries[i].0)
  }

  lemma TailNames(entries: Entries)
    requires entries != []
    ensures Names(entries)[1..] == Names(entries[1..]) && Names(entries)[0] == entries[0].0
  {}

  lemma DistinctTail(keys: seq<string>)
    requires keys != [] && Distinct(keys)
    ensures Distinct(keys[1..]) && keys[0] !in keys[1..]
  {}

  /** What is left behind the first entry, when a name stands further on. */
  lemma Behind(entries: Entries, name: string, position: nat)
    requires 0 < position < |entries| && entries[position].0 == name && Distinct(Names(entries))
    ensures entries[0].0 != name && Distinct(Names(entries[1..])) && entries[1..][position - 1].0 == name
  {
    TailNames(entries);
    DistinctTail(Names(entries));
    assert Names(entries)[1..][position - 1] == name;
  }

  lemma First(entries: Entries)
    requires entries != [] && Distinct(Names(entries))
    ensures entries[0].0 !in Names(entries[1..])
  {
    TailNames(entries);
    DistinctTail(Names(entries));
  }

  lemma {:induction false} LookupAt(entries: Entries, name: string, position: nat)
    requires position < |entries| && entries[position].0 == name && Distinct(Names(entries))
    ensures Lookup(entries, name) == Some(entries[position].1)
  {
    hide Distinct, Names;
    if position > 0 {
      Behind(entries, name, position);
      LookupAt(entries[1..], name, position - 1);
    }
  }

  lemma {:induction false} PutAt(entries: Entries, name: string, value: Raw, position: nat)
    requires position < |entries| && entries[position].0 == name && Distinct(Names(entries))
    ensures Put(entries, name, value) == entries[position := (name, value)]
  {
    hide Distinct, Names;
    if position > 0 {
      Behind(entries, name, position);
      PutAt(entries[1..], name, value, position - 1);
      assert entries[position := (name, value)] == [entries[0]] + entries[1..][position - 1 := (name, value)];
    }
  }

  lemma {:induction false} WithoutAt(entries: Entries, name: string, position: nat)
    requires position < |entries| && entries[position].0 == name && Distinct(Names(entries))
    ensures Without(entries, name) == entries[..position] + entries[position + 1..]
  {
    hide Distinct, Names;
    if position > 0 {
      Behind(entries, name, position);
      WithoutAt(entries[1..], name, position - 1);
      DropSplits(entries, position);
    } else {
      First(entries);
      Absent(entries[1..], name, 0);
      assert entries[..0] + entries[1..] == entries[1..];
    }
  }

  lemma DropSplits(entries: Entries, position: nat)
    requires 0 < position < |entries|
    ensures entries[..position] + entries[position + 1..]
         == [entries[0]] + (entries[1..][..position - 1] + entries[1..][position..])
  {
    assert entries[..position] == [entries[0]] + entries[1..][..position - 1];
    assert entries[position + 1..] == entries[1..][position..];
  }

  /** The operations at the position of a name. */
  lemma AtPosition(entries: Entries, name: string, value: Raw, position: nat)
    requires position < |entries| && entries[position].0 == name && Distinct(Names(entries))
    ensures Lookup(entries, name) == Some(entries[position].1)
    ensures Put(entries, name, value) == entries[position := (name, value)]
    ensures Without(entries, name) == entries[..position] + entries[position + 1..]
  {
    hide *;
    LookupAt(entries, name, position);
    PutAt(entries, name, value, position);
    WithoutAt(entries, name, position);
  }

  /** The operations on a name that is not there. */
  lemma {:induction false} Absent(entries: Entries, name: string, value: Raw)
    requires name !in Names(entries)
    ensures Lookup(entries, name) == None
    ensures Put(entries, name, value) == entries + [(name, value)]
    ensures Without(entries, name) == entries
  {
    if entries != [] {
      TailNames(entries);
      assert forall key :: key in Names(entries)[1..] ==> key in Names(entries);
      hide Names;
      assert [entries[0]] + (entries[1..] + [(name, value)]) == entries + [(name, value)];
      Absent(entries[1..], name, value);
    }
  }

  // ---- Objects ----

  /** The keys of a shape with the values that stand for them. */
  ghost function Zip(keys: seq<string>, values: seq<Raw>): (entries: Entries)
    requires |keys| <= |values|
    ensures |entries| == |keys| && forall i {:trigger entries[i]} :: 0 <= i < |keys| ==>
        entries[i] == (keys[i], values[i])
  {
    seq(|keys|, i requires 0 <= i < |keys| => (keys[i], values[i]))
  }

  lemma ZipNames(keys: seq<string>, values: seq<Raw>)
    requires |keys| <= |values|
    ensures Names(Zip(keys, values)) == keys
  {}

  /** The keys but for the one at `index`, up to position `count`. */
  function Others(keys: seq<string>, index: nat, count: nat): seq<string>
    requires index < |keys| && count <= |keys|
  {
    if count <= index then keys[..count] else keys[..index] + keys[index + 1..count]
  }

  class UntypedObject {
    var shape: nat
    var values: array<Raw>

    ghost predicate Fits(tree: ShapeTree)
      reads this, tree
    {
      Complete(tree.nodes, tree.root, shape) && |tree.nodes[shape].keys| <= values.Length
      && Distinct(tree.nodes[shape].keys)
    }

    /** The Object as a map. */
    ghost function View(tree: ShapeTree): Entries
      requires Fits(tree)
      reads this, values, tree
    {
      Zip(tree.nodes[shape].keys, values[..])
    }

    /** An Object of a shape, all of its values None; it has room for `capacity` values at least. */
    constructor (tree: ShapeTree, shape: nat, capacity: nat)
      requires Complete(tree.nodes, tree.root, shape) && Distinct(tree.nodes[shape].keys)
      ensures Fits(tree) && this.shape == shape && Roomy(values, capacity)
      ensures forall i :: 0 <= i < |View(tree)| ==> View(tree)[i] == (tree.nodes[shape].keys[i], NONE_RAW)
    {
      var room := if capacity < |tree.nodes[shape].keys| then |tree.nodes[shape].keys| else capacity;
      room := if room < MIN_CAPACITY then MIN_CAPACITY else room;
      this.shape := shape;
      values := new Raw[room](_ => NONE_RAW);
    }

    method Get(tree: ShapeTree, name: string) returns (value: Raw)
      requires Fits(tree)
      ensures value == if Lookup(View(tree), name).Some? then Lookup(View(tree), name).value else NONE_RAW
    {
      hide Lookup, Put, Without, Distinct;
      var position := tree.FindKey(shape, name);
      ZipNames(tree.nodes[shape].keys, values[..]);
      if position.Some? {
        AtPosition(View(tree), name, 0, position.value);
        value := values[position.value];
      } else {
        Absent(View(tree), name, 0);
        value := NONE_RAW;
      }
    }

    /** Where generated code finds a key in every Object of the same shape. */
    method Find(tree: ShapeTree, name: string) returns (found: Option<(nat, nat)>)
      requires Fits(tree)
      ensures found.Some? <==> Lookup(View(tree), name).Some?
      ensures found.Some? ==> (found.value.0 == shape && found.value.1 < |tree.nodes[shape].keys|
        && tree.nodes[shape].keys[found.value.1] == name)
    {
      hide Lookup, Put, Without, Distinct;
      var position := tree.FindKey(shape, name);
      ZipNames(tree.nodes[shape].keys, values[..]);
      if position.Some? {
        AtPosition(View(tree), name, 0, position.value);
        found := Some((shape, position.value));
      } else {
        Absent(View(tree), name, 0);
        found := None;
      }
    }

    method Set(tree: ShapeTree, name: string, value: Raw) returns (ok: bool)
      requires Valid(tree.nodes, tree.root, tree.kids) && Fits(tree)
      modifies this, values, tree
      ensures Valid(tree.nodes, tree.root, tree.kids) && Keeps(old(tree.nodes), old(tree.root), tree.nodes, tree.root)
      ensures Fits(tree) && View(tree) == if ok then Put(old(View(tree)), name, value) else old(View(tree))
      ensures values == old(values) || fresh(values)
      ensures old(Lookup(View(tree), name)).Some? ==> ok && shape == old(shape) && tree.nodes == old(tree.nodes)
      ensures !ok ==> Exhausted(tree.memory, old(tree.asked), tree.asked) || Outgrown(values, |tree.nodes[shape].keys|)
    {
      hide Lookup, Put, Without, Distinct, Valid;
      var position := tree.FindKey(shape, name);
      ghost var before := View(tree);
      ZipNames(tree.nodes[shape].keys, values[..]);
      if position.Some? {
        AtPosition(before, name, value, position.value);
        values[position.value] := value;
        assert View(tree) == before[position.value := (name, value)];
        return true;
      }
      Absent(before, name, value);
      ok := Append(tree, name, value);
    }

    /** Appends a key that the Object lacks; when memory is exhausted the Object stays as it was. */
    method Append(tree: ShapeTree, name: string, value: Raw) returns (ok: bool)
      requires Valid(tree.nodes, tree.root, tree.kids) && Fits(tree) && name !in tree.nodes[shape].keys
      modifies this, values, tree
      ensures Valid(tree.nodes, tree.root, tree.kids) && Keeps(old(tree.nodes), old(tree.root), tree.nodes, tree.root)
      ensures Fits(tree) && View(tree) == old(View(tree)) + (if ok then [(name, value)] else [])
      ensures values == old(values) || fresh(values)
      ensures !ok ==> Exhausted(tree.memory, old(tree.asked), tree.asked) || Outgrown(values, |tree.nodes[shape].keys|)
    {
      hide Valid, Keeps;
      ghost var before := View(tree);
      var keys := tree.nodes[shape].keys;
      RootThere(tree.nodes, tree.root, tree.kids, shape);
      var next := tree.Transition(shape, name);
      KeepsShape(old(tree.nodes), old(tree.root), tree.nodes, tree.root, shape);
      ok := false;
      if next.Some? {
        ok := Reserve(tree, |keys|);
      }
      assert View(tree) == before;
      if ok {
        values[|keys|] := value;
        shape := next.value;
        Distinguished(keys, name);
        assert View(tree) == before + [(name, value)];
      }
    }

    /** Makes room for one more value. */
    method Reserve(tree: ShapeTree, count: nat) returns (ok: bool)
      requires count <= values.Length
      modifies this`values, tree`asked
      ensures count <= values.Length && values[..count] == old(values[..count])
      ensures values == old(values) || fresh(values)
      ensures ok ==> count < values.Length
      ensures tree.asked >= old(tree.asked)
      ensures !ok ==> Exhausted(tree.memory, old(tree.asked), tree.asked) || Outgrown(values, count)
    {
      if count == values.Length {
        var grown := if values.Length * 2 < MIN_CAPACITY then MIN_CAPACITY else values.Length * 2;
        if values.Length * 2 >= WORD || grown * 8 + SLOTS >= WORD {
          return false;
        }
        var address := tree.Allocate();
        if address.None? {
          return false;
        }
        var replacement := new Raw[grown](_ => 0);
        Copy(values, replacement, count);
        values := replacement;
      }
      ok := true;
    }

    /** Removes a key and gives its value, if any; when memory is exhausted the Object stays as it was. */
    method Remove(tree: ShapeTree, name: string) returns (removed: Option<Option<Raw>>)
      requires Valid(tree.nodes, tree.root, tree.kids) && Fits(tree)
      modifies this, values, tree
      ensures Valid(tree.nodes, tree.root, tree.kids) && Keeps(old(tree.nodes), old(tree.root), tree.nodes, tree.root)
      ensures removed.Some? ==> removed.value == old(Lookup(View(tree), name))
      ensures Fits(tree) && View(tree) == if removed.Some? then Without(old(View(tree)), name) else old(View(tree))
      ensures values == old(values)
      ensures removed.None? ==> Exhausted(tree.memory, old(tree.asked), tree.asked)
    {
      hide Valid, Keeps, Lookup, Without, Distinct;
      ghost var before := View(tree);
      ghost var row := values[..];
      var keys := tree.nodes[shape].keys;
      RootThere(tree.nodes, tree.root, tree.kids, shape);
      ZipNames(keys, values[..]);
      var position := tree.FindKey(shape, name);
      if position.None? {
        Absent(before, name, 0);
        KeepsItself(tree.nodes, tree.root);
        return Some(None);
      }
      var index, count := position.value, |keys|;
      AtPosition(before, name, 0, index);
      var next := OtherShape(tree, keys, index);
      KeepsShape(old(tree.nodes), old(tree.root), tree.nodes, tree.root, shape);
      if next.None? {
        return None;
      }
      var value := TakeOut(tree, keys, index, next.value);
      ZipOthers(keys, row, values[..], index);
      removed := Some(Some(value));
    }

    /** Moves the Object to the shape without key `index` and closes the gap in its values. */
    method TakeOut(tree: ShapeTree, keys: seq<string>, index: nat, next: nat) returns (value: Raw)
      requires index < |keys| <= values.Length && Distinct(keys)
      requires Stands(tree.nodes, tree.root, next, Others(keys, index, |keys|))
      modifies this`shape, values
      ensures Fits(tree) && shape == next && value == old(values[index])
      ensures forall i :: 0 <= i < |keys| - 1 ==> values[i] == if i < index then old(values[i]) else old(values[i + 1])
    {
      value := values[index];
      ShiftDown(index, |keys|);
      values[|keys| - 1] := 0;
      shape := next;
      OthersDistinct(keys, index);
    }

    /** Moves the values behind `index` one down. */
    method ShiftDown(index: nat, count: nat)
      requires index < count <= values.Length
      modifies values
      ensures forall i :: 0 <= i < index || count <= i < values.Length ==> values[i] == old(values[i])
      ensures forall i :: index <= i < count - 1 ==> values[i] == old(values[i + 1])
    {
      var i := index;
      while i < count - 1
        modifies values
        invariant index <= i <= count - 1
        invariant forall j :: 0 <= j < index || i < j < values.Length ==> values[j] == old(values[j])
        invariant forall j :: index <= j < i ==> values[j] == old(values[j + 1])
      {
        values[i] := values[i + 1];
        i := i + 1;
      }
    }

    method Clear(tree: ShapeTree) returns (ok: bool)
      requires Valid(tree.nodes, tree.root, tree.kids) && Fits(tree)
      modifies this, values, tree
      ensures ok && Valid(tree.nodes, tree.root, tree.kids)
      ensures Keeps(old(tree.nodes), old(tree.root), tree.nodes, tree.root)
      ensures Fits(tree) && View(tree) == []
      ensures values == old(values) && forall i :: 0 <= i < old(|tree.nodes[shape].keys|) ==> values[i] == 0
    {
      var count, i := |tree.nodes[shape].keys|, 0;
      RootThere(tree.nodes, tree.root, tree.kids, shape);
      while i < count
        modifies values
        invariant 0 <= i <= count && forall j :: 0 <= j < i ==> values[j] == 0
      {
        values[i] := 0;
        i := i + 1;
      }
      var root := tree.RootShape();
      shape := root.value;
      ok := true;
    }
  }

  /** All slots are taken, and twice as many would not fit a 32-bit size. */
  predicate Outgrown(values: array<Raw>, count: nat) {
    count == values.Length && 16 * values.Length + SLOTS >= WORD
  }

  predicate Roomy(values: array<Raw>, capacity: nat) {
    capacity <= values.Length && MIN_CAPACITY <= values.Length
  }

  method Copy(source: array<Raw>, target: array<Raw>, count: nat)
    requires count <= source.Length && count <= target.Length && source != target
    modifies target
    ensures forall i :: 0 <= i < count ==> target[i] == source[i]
  {
    var i: nat := 0;
    while i < count
      invariant i <= count && forall j :: 0 <= j < i ==> target[j] == source[j]
    {
      target[i] := source[i];
      i := i + 1;
    }
  }

  lemma OtherKey(keys: seq<string>, index: nat, position: nat)
    requires index < |keys| && position < |keys| && position != index
    ensures Others(keys, index, position + 1) == Others(keys, index, position) + [keys[position]]
  {}

  /** The shape of the keys of a shape but for one, built from the root. */
  method OtherShape(tree: ShapeTree, keys: seq<string>, index: nat) returns (next: Option<nat>)
    requires Valid(tree.nodes, tree.root, tree.kids) && index < |keys|
    modifies tree
    ensures Valid(tree.nodes, tree.root, tree.kids) && Keeps(old(tree.nodes), old(tree.root), tree.nodes, tree.root)
    ensures next.Some? ==> Stands(tree.nodes, tree.root, next.value, Others(keys, index, |keys|))
    ensures tree.asked >= old(tree.asked)
    ensures next.None? ==> Exhausted(tree.memory, old(tree.asked), tree.asked)
  {
    hide Valid, Keeps;
    next := tree.RootShape();
    var position: nat := 0;
    while position < |keys| && next.Some?
      invariant position <= |keys| && Valid(tree.nodes, tree.root, tree.kids)
      invariant Keeps(old(tree.nodes), old(tree.root), tree.nodes, tree.root)
      invariant next.Some? ==> Stands(tree.nodes, tree.root, next.value, Others(keys, index, position))
      invariant tree.asked >= old(tree.asked)
      invariant next.None? ==> Exhausted(tree.memory, old(tree.asked), tree.asked)
    {
      if position != index {
        ghost var before, beforeRoot := tree.nodes, tree.root;
        next := tree.Transition(next.value, keys[position]);
        KeepsChain(old(tree.nodes), old(tree.root), before, beforeRoot, tree.nodes, tree.root);
        OtherKey(keys, index, position);
      }
      position := position + 1;
    }
  }

  /** Values shifted down stand for the other keys. */
  lemma OthersLength(keys: seq<string>, index: nat)
    requires index < |keys|
    ensures |Others(keys, index, |keys|)| == |keys| - 1
  {}

  lemma OthersAt(keys: seq<string>, index: nat, i: nat)
    requires index < |keys| && i < |keys| - 1
    ensures |Others(keys, index, |keys|)| == |keys| - 1
    ensures Others(keys, index, |keys|)[i] == keys[if i < index then i else i + 1]
  {}

  lemma DroppedAt(entries: Entries, index: nat, i: nat)
    requires index < |entries| && i < |entries| - 1
    ensures (entries[..index] + entries[index + 1..])[i] == entries[if i < index then i else i + 1]
  {}

  lemma ZipOthers(keys: seq<string>, row: seq<Raw>, shifted: seq<Raw>, index: nat)
    requires index < |keys| <= |row| == |shifted|
    requires forall i {:trigger shifted[i]} :: 0 <= i < |keys| - 1 ==> shifted[i] == if i < index then row[i]
        else row[i + 1]
    ensures Zip(Others(keys, index, |keys|), shifted) == Zip(keys, row)[..index] + Zip(keys, row)[index + 1..]
  {
    hide Zip, Others;
    var others := Others(keys, index, |keys|);
    OthersLength(keys, index);
    var left, right := Zip(others, shifted), Zip(keys, row)[..index] + Zip(keys, row)[index + 1..];
    assert |left| == |right|;
    forall i | 0 <= i < |left| ensures left[i] == right[i] {
      OthersAt(keys, index, i);
      DroppedAt(Zip(keys, row), index, i);
    }
  }

  lemma KeepsItself(nodes: Tree, root: nat)
    ensures Keeps(nodes, root, nodes, root)
  {}

  lemma KeepsShape(nodes: Tree, root: nat, later: Tree, laterRoot: nat, shape: nat)
    requires Keeps(nodes, root, later, laterRoot) && Complete(nodes, root, shape) && root != 0
    ensures Complete(later, laterRoot, shape) && later[shape].keys == nodes[shape].keys
  {}

  lemma Distinguished(keys: seq<string>, name: string)
    requires Distinct(keys) && name !in keys
    ensures Distinct(keys + [name])
  {}

  lemma OthersDistinct(keys: seq<string>, index: nat)
    requires index < |keys| && Distinct(keys)
    ensures Distinct(Others(keys, index, |keys|))
  {
    var others := Others(keys, index, |keys|);
    assert forall i :: 0 <= i < |others| ==> others[i] == if i < index then keys[i] else keys[i + 1];
  }

  lemma RootThere(nodes: Tree, root: nat, kids: map<nat, seq<nat>>, shape: nat)
    requires Valid(nodes, root, kids) && Complete(nodes, root, shape)
    ensures root != 0
  {}

  // ---- Sharing ----

  /** An Object that an operation on another one does not store to stays the same map, whatever shapes were created. */
  lemma SameMapLater(nodes: Tree, root: nat, later: Tree, laterRoot: nat, shape: nat, values: seq<Raw>)
    requires Keeps(nodes, root, later, laterRoot) && Complete(nodes, root, shape) && root != 0
    requires |nodes[shape].keys| <= |values|
    ensures Complete(later, laterRoot, shape) && Zip(later[shape].keys, values) == Zip(nodes[shape].keys, values)
  {}

  /** A cached shape and position answer for every Object of that shape, however many shapes were created since. */
  lemma CacheHolds(nodes: Tree, root: nat, kids: map<nat, seq<nat>>, later: Tree, laterRoot: nat,
    shape: nat, position: nat, name: string, values: seq<Raw>)
    requires Valid(nodes, root, kids) && Keeps(nodes, root, later, laterRoot) && Complete(nodes, root, shape)
    requires position < |nodes[shape].keys| <= |values| && nodes[shape].keys[position] == name
    requires Distinct(nodes[shape].keys)
    ensures Complete(later, laterRoot, shape) && Lookup(Zip(later[shape].keys, values), name) == Some(values[position])
  {
    SameMapLater(nodes, root, later, laterRoot, shape, values);
    ZipNames(nodes[shape].keys, values);
    AtPosition(Zip(nodes[shape].keys, values), name, 0, position);
  }

  /** Objects with equal keys in equal order have the same shape. */
  lemma SameKeysSameShape(nodes: Tree, root: nat, kids: map<nat, seq<nat>>, one: nat, other: nat, values: seq<Raw>,
                          others: seq<Raw>)
    requires Valid(nodes, root, kids) && Complete(nodes, root, one) && Complete(nodes, root, other)
    requires |nodes[one].keys| <= |values| && |nodes[other].keys| <= |others|
    ensures Names(Zip(nodes[one].keys, values)) == Names(Zip(nodes[other].keys, others)) <==> one == other
  {
    ZipNames(nodes[one].keys, values);
    ZipNames(nodes[other].keys, others);
    if nodes[one].keys == nodes[other].keys {
      Canonical(nodes, root, kids, one, other);
    }
  }
}
