/** Shapes: the shared key lists of untyped Objects, a tree grown one key at a time. */
module Shapes {
  import opened Wrappers

  /** A shape at its address; address 0 is no shape. A child whose keys could not be stored has none. */
  datatype Node = Node(parent: nat, keys: seq<string>, firstChild: nat, nextSibling: nat)

  type Tree = map<nat, Node>

  /** Address `i` of a sibling list, 0 at its end. */
  ghost function At(list: seq<nat>, i: nat): nat {
    if i < |list| then list[i] else 0
  }

  /** Entry `i` of a sibling list is a child of the shape and points to the next. */
  ghost predicate Sits(nodes: Tree, shape: nat, list: seq<nat>, i: nat)
    requires i < |list|
  {
    && list[i] in nodes && list[i] != 0 && nodes[list[i]].parent == shape
    && nodes[list[i]].nextSibling == At(list, i + 1)
  }

  /** `list` is the sibling list of the children of a shape. */
  ghost predicate Chain(nodes: Tree, shape: nat, list: seq<nat>)
    requires shape in nodes
  {
    && nodes[shape].firstChild == At(list, 0)
    && forall i {:trigger Sits(nodes, shape, list, i)} :: 0 <= i < |list| ==> Sits(nodes, shape, list, i)
  }

  /** A shape that stands for its keys: the root, or one whose keys were stored. */
  ghost predicate Complete(nodes: Tree, root: nat, shape: nat) {
    shape in nodes && (shape == root || nodes[shape].keys != [])
  }

  ghost function KeysOf(nodes: Tree, shape: nat): seq<string> {
    if shape in nodes then nodes[shape].keys else []
  }

  /** A shape extends its parent by one key, and no sibling extends it by the same. */
  ghost predicate Grown(nodes: Tree, root: nat, kids: map<nat, seq<nat>>, shape: nat)
    requires shape in nodes
  {
    var parent := nodes[shape].parent;
    && Complete(nodes, root, parent) && parent in kids && shape in kids[parent]
    && (nodes[shape].keys != [] ==>
      |nodes[shape].keys| == |nodes[parent].keys| + 1 && nodes[parent].keys < nodes[shape].keys)
  }

  ghost predicate Chained(nodes: Tree, kids: map<nat, seq<nat>>) {
    nodes.Keys == kids.Keys && forall shape {:trigger kids[shape]} :: shape in nodes ==>
      Chain(nodes, shape, kids[shape])
  }

  ghost predicate AllGrown(nodes: Tree, root: nat, kids: map<nat, seq<nat>>) {
    forall shape {:trigger Grown(nodes, root, kids, shape)} :: shape in nodes && shape != root ==>
      Grown(nodes, root, kids, shape)
  }

  ghost predicate Alike(nodes: Tree, root: nat, one: nat, other: nat) {
    && one in nodes && other in nodes && one != root && other != root
    && nodes[one].parent == nodes[other].parent && nodes[one].keys == nodes[other].keys != []
  }

  ghost predicate Unique(nodes: Tree, root: nat) {
    forall one, other {:trigger Alike(nodes, root, one, other)} :: Alike(nodes, root, one, other) ==> one == other
  }

  ghost predicate Rooted(nodes: Tree, root: nat) {
    0 !in nodes && if root == 0 then nodes == map[]
      else root in nodes && nodes[root].keys == [] && nodes[root].parent == 0
  }

  ghost predicate Valid(nodes: Tree, root: nat, kids: map<nat, seq<nat>>) {
    Rooted(nodes, root) && Chained(nodes, kids) && AllGrown(nodes, root, kids) && Unique(nodes, root)
  }

  /** Later trees keep every shape and its keys. */
  ghost predicate Keeps(nodes: Tree, root: nat, later: Tree, laterRoot: nat) {
    && (root != 0 ==> laterRoot == root)
    && forall shape {:trigger later[shape]} {:trigger shape in later} ::
         shape in nodes ==> shape in later && later[shape].keys == nodes[shape].keys
  }

  lemma KeepsChain(first: Tree, firstRoot: nat, second: Tree, secondRoot: nat, third: Tree, thirdRoot: nat)
    requires Keeps(first, firstRoot, second, secondRoot) && Keeps(second, secondRoot, third, thirdRoot)
    ensures Keeps(first, firstRoot, third, thirdRoot)
  {}

  /** Shapes are canonical: equal key sequences are the same shape. */
  lemma {:induction false} Canonical(nodes: Tree, root: nat, kids: map<nat, seq<nat>>, one: nat, other: nat)
    requires Valid(nodes, root, kids) && Complete(nodes, root, one) && Complete(nodes, root, other)
    requires nodes[one].keys == nodes[other].keys
    ensures one == other
    decreases |nodes[one].keys|
  {
    if nodes[one].keys != [] {
      hide Chained, At;
      assert Grown(nodes, root, kids, one) && Grown(nodes, root, kids, other);
      assert nodes[nodes[one].parent].keys == nodes[nodes[other].parent].keys;
      Canonical(nodes, root, kids, nodes[one].parent, nodes[other].parent);
      assert Alike(nodes, root, one, other);
    }
  }

  /** A shape with one more key is a child. */
  lemma ExtensionIsChild(nodes: Tree, root: nat, kids: map<nat, seq<nat>>, shape: nat, longer: nat, key: string)
    requires Valid(nodes, root, kids) && Complete(nodes, root, shape) && Complete(nodes, root, longer)
    requires nodes[longer].keys == nodes[shape].keys + [key]
    ensures nodes[longer].parent == shape && longer in kids[shape]
  {
    hide Chained, At;
    assert Grown(nodes, root, kids, longer);
    var parent := nodes[longer].parent;
    assert nodes[parent].keys == nodes[shape].keys;
    Canonical(nodes, root, kids, parent, shape);
  }

  /** `shape` is the shape with these keys. */
  ghost predicate Stands(nodes: Tree, root: nat, shape: nat, keys: seq<string>) {
    Complete(nodes, root, shape) && nodes[shape].keys == keys
  }

  /** The tree after a new child without keys is linked first among its siblings. */
  function Linked(nodes: Tree, shape: nat, child: nat): Tree
    requires shape in nodes
  {
    nodes[child := Node(shape, [], 0, nodes[shape].firstChild)][shape := nodes[shape].(firstChild := child)]
  }

  lemma LinkedNodes(nodes: Tree, shape: nat, child: nat)
    requires shape in nodes && child !in nodes
    ensures var linked := Linked(nodes, shape, child);
      && linked.Keys == nodes.Keys + {child} && linked[child] == Node(shape, [], 0, nodes[shape].firstChild)
      && linked[shape].firstChild == child
      && forall other {:trigger linked[other]} {:trigger nodes[other]} :: other in nodes ==>
           && linked[other].keys == nodes[other].keys && linked[other].parent == nodes[other].parent
           && linked[other].nextSibling == nodes[other].nextSibling
           && (other != shape ==> linked[other].firstChild == nodes[other].firstChild)
  {}

  lemma LinkedChained(nodes: Tree, kids: map<nat, seq<nat>>, shape: nat, child: nat)
    requires Chained(nodes, kids) && shape in nodes && child != 0 && child !in nodes
    ensures Chained(Linked(nodes, shape, child), kids[child := []][shape := [child] + kids[shape]])
  {
    var linked, more := Linked(nodes, shape, child), kids[child := []][shape := [child] + kids[shape]];
    LinkedNodes(nodes, shape, child);
    hide Linked;
    forall other | other in linked ensures Chain(linked, other, more[other]) {
      if other != child {
        assert Chain(nodes, other, kids[other]);
        forall i | 0 <= i < |more[other]| ensures Sits(linked, other, more[other], i) {
          if other != shape {
            assert Sits(nodes, other, kids[other], i);
          } else if i > 0 {
            assert Sits(nodes, shape, kids[shape], i - 1);
          }
        }
      }
    }
  }

  lemma LinkedUnique(nodes: Tree, root: nat, shape: nat, child: nat)
    requires Unique(nodes, root) && shape in nodes && child !in nodes
    ensures Unique(Linked(nodes, shape, child), root)
  {
    LinkedNodes(nodes, shape, child);
    hide Linked;
    forall one, other | Alike(Linked(nodes, shape, child), root, one, other) ensures one == other {
      assert Alike(nodes, root, one, other);
    }
  }

  lemma LinkedGrown(nodes: Tree, root: nat, kids: map<nat, seq<nat>>, shape: nat, child: nat)
    requires AllGrown(nodes, root, kids) && Complete(nodes, root, shape) && child !in nodes && kids.Keys == nodes.Keys
    ensures AllGrown(Linked(nodes, shape, child), root, kids[child := []][shape := [child] + kids[shape]])
  {
    var linked, more := Linked(nodes, shape, child), kids[child := []][shape := [child] + kids[shape]];
    LinkedNodes(nodes, shape, child);
    hide Linked;
    forall other | other in linked && other != root ensures Grown(linked, root, more, other) {
      if other != child {
        assert Grown(nodes, root, kids, other);
        assert linked[nodes[other].parent].keys == nodes[nodes[other].parent].keys;
      }
    }
  }

  lemma LinkedValid(nodes: Tree, root: nat, kids: map<nat, seq<nat>>, shape: nat, child: nat)
    requires Valid(nodes, root, kids) && Complete(nodes, root, shape) && child != 0 && child !in nodes
    ensures Valid(Linked(nodes, shape, child), root, kids[child := []][shape := [child] + kids[shape]])
    ensures Keeps(nodes, root, Linked(nodes, shape, child), root)
  {
    Same(nodes, kids);
    LinkedChained(nodes, kids, shape, child);
    LinkedNodes(nodes, shape, child);
    LinkedGrown(nodes, root, kids, shape, child);
    LinkedUnique(nodes, root, shape, child);
    hide Chained, AllGrown, Unique, Linked;
  }

  lemma Same(nodes: Tree, kids: map<nat, seq<nat>>)
    requires Chained(nodes, kids)
    ensures kids.Keys == nodes.Keys
  {}

  /** The tree after a linked child gets its keys. */
  function Named(nodes: Tree, shape: nat, child: nat, key: string): Tree
    requires shape in nodes && child in nodes
  {
    nodes[child := nodes[child].(keys := nodes[shape].keys + [key])]
  }

  lemma NamedChained(nodes: Tree, kids: map<nat, seq<nat>>, shape: nat, child: nat, key: string)
    requires Chained(nodes, kids) && shape in nodes && child in nodes
    ensures Chained(Named(nodes, shape, child, key), kids)
  {
    var named := Named(nodes, shape, child, key);
    forall other | other in named ensures Chain(named, other, kids[other]) {
      assert Chain(nodes, other, kids[other]);
      forall i | 0 <= i < |kids[other]| ensures Sits(named, other, kids[other], i) {
        assert Sits(nodes, other, kids[other], i);
      }
    }
  }

  lemma NamedValid(nodes: Tree, root: nat, kids: map<nat, seq<nat>>, shape: nat, child: nat, key: string)
    requires Valid(nodes, root, kids) && Complete(nodes, root, shape) && child in nodes && child != root
    requires nodes[child].parent == shape && nodes[child].keys == [] && child in kids && kids[child] == []
    requires NoExtension(nodes, root, shape, key)
    ensures Valid(Named(nodes, shape, child, key), root, kids)
    ensures Stands(Named(nodes, shape, child, key), root, child, nodes[shape].keys + [key])
  {
    var named := Named(nodes, shape, child, key);
    NamedChained(nodes, kids, shape, child, key);
    hide Chained, Chain;
    forall other | other in named && other != root ensures Grown(named, root, kids, other) {
      assert Grown(nodes, root, kids, other);
    }
    forall one, other | Alike(named, root, one, other) ensures one == other {
      if one != child && other != child {
        assert Alike(nodes, root, one, other);
      } else {
        assert one != child ==> Complete(nodes, root, one);
        assert other != child ==> Complete(nodes, root, other);
      }
    }
  }

  /** No shape extends `shape` by `key`. */
  ghost predicate NoExtension(nodes: Tree, root: nat, shape: nat, key: string)
    requires shape in nodes
  {
    forall other {:trigger Complete(nodes, root, other)} :: Complete(nodes, root, other) ==>
      nodes[other].keys != nodes[shape].keys + [key]
  }

  /** What a walk over the children of a shape meets. */
  lemma ChildAt(nodes: Tree, root: nat, kids: map<nat, seq<nat>>, shape: nat, i: nat)
    requires Valid(nodes, root, kids) && Complete(nodes, root, shape)
    ensures shape in kids && nodes[shape].firstChild == At(kids[shape], 0)
    ensures i < |kids[shape]| ==> var child := kids[shape][i];
      && child in nodes && child != 0 && child != root && nodes[child].nextSibling == At(kids[shape], i + 1)
      && (nodes[child].keys != [] ==>
        |nodes[child].keys| == |nodes[shape].keys| + 1 && nodes[shape].keys < nodes[child].keys)
  {
    assert Chain(nodes, shape, kids[shape]);
    if i < |kids[shape]| {
      var child := kids[shape][i];
      assert Sits(nodes, shape, kids[shape], i);
      hide Chained, Unique;
      assert child != root ==> Grown(nodes, root, kids, child);
    }
  }

  lemma NotStanding(nodes: Tree, root: nat, shape: nat, name: string)
    requires shape in nodes && NoExtension(nodes, root, shape, name)
    ensures forall other :: !Stands(nodes, root, other, nodes[shape].keys + [name])
  {}

  lemma LinkedChild(nodes: Tree, root: nat, kids: map<nat, seq<nat>>, shape: nat, child: nat, name: string)
    requires Valid(nodes, root, kids) && Complete(nodes, root, shape) && child != 0 && child !in nodes
    requires NoExtension(nodes, root, shape, name)
    ensures var linked := Linked(nodes, shape, child);
      && child in linked && child != root && linked[child].parent == shape && linked[child].keys == []
      && Complete(linked, root, shape) && linked[shape].keys == nodes[shape].keys
      && NoExtension(linked, root, shape, name)
      && shape in kids && shape != child
  {
    var linked := Linked(nodes, shape, child);
    LinkedNodes(nodes, shape, child);
    Same(nodes, kids);
    hide Chained, AllGrown, Unique, Linked;
    forall other: nat | Complete(linked, root, other) ensures linked[other].keys != linked[shape].keys + [name] {
      assert other != child ==> Complete(nodes, root, other);
    }
  }

  lemma NamedKeeps(nodes: Tree, root: nat, shape: nat, child: nat, name: string, before: Tree)
    requires Keeps(before, root, nodes, root) && shape in nodes && child in nodes && child !in before
    ensures Keeps(before, root, Named(nodes, shape, child, name), root)
  {}

  lemma NoneExtends(nodes: Tree, root: nat, kids: map<nat, seq<nat>>, shape: nat, name: string)
    requires Valid(nodes, root, kids) && Complete(nodes, root, shape) && shape in kids
    requires forall j :: 0 <= j < |kids[shape]| ==> KeysOf(nodes, kids[shape][j]) != nodes[shape].keys + [name]
    ensures NoExtension(nodes, root, shape, name)
  {
    forall other: nat | Complete(nodes, root, other) && nodes[other].keys == nodes[shape].keys + [name] ensures false {
      ExtensionIsChild(nodes, root, kids, shape, other, name);
    }
  }

  lemma FreshAddress(used: set<nat>)
    ensures exists address: nat :: address != 0 && address !in used
  {
    var bound := Above(used);
    assert bound + 1 !in used;
  }

  ghost function Above(used: set<nat>): (bound: nat)
    ensures forall address :: address in used ==> address <= bound
    decreases |used|
  {
    if used == {} then 0
    else
      var one: nat :| one in used;
      var rest := Above(used - {one});
      assert forall address :: address in used ==> address == one || address in used - {one};
      if one < rest then rest else one
  }

  /** One of the requests for storage from number `first` up to `later` finds none. */
  ghost predicate Exhausted(memory: nat -> bool, first: nat, later: nat) {
    exists request: nat {:trigger memory(request)} :: first <= request < later && !memory(request)
  }

  class ShapeTree {
    /** Whether each request for storage finds some. */
    const memory: nat -> bool
    /** The requests for storage so far. */
    var asked: nat
    var nodes: Tree
    var root: nat
    /** The sibling lists. */
    ghost var kids: map<nat, seq<nat>>

    constructor (memory: nat -> bool)
      ensures Valid(nodes, root, kids) && nodes == map[] && asked == 0 && this.memory == memory
    {
      this.memory := memory;
      asked := 0;
      nodes := map[];
      root := 0;
      kids := map[];
    }

    /** An unused address, or nothing when memory is exhausted. */
    method Allocate() returns (address: Option<nat>)
      modifies this`asked
      ensures asked == old(asked) + 1 && (address.Some? <==> memory(old(asked)))
      ensures address.Some? ==> address.value != 0 && address.value !in nodes
    {
      asked := asked + 1;
      if !memory(asked - 1) {
        return None;
      }
      FreshAddress(nodes.Keys);
      var unused: nat :| unused != 0 && unused !in nodes.Keys;
      address := Some(unused);
    }

    /** The empty shape, created on first use. */
    method RootShape() returns (shape: Option<nat>)
      requires Valid(nodes, root, kids)
      modifies this
      ensures Valid(nodes, root, kids) && Keeps(old(nodes), old(root), nodes, root)
      ensures shape.Some? ==> shape.value == root && Stands(nodes, root, root, [])
      ensures old(root) != 0 ==> shape.Some?
      ensures asked >= old(asked) && (shape.None? ==> Exhausted(memory, old(asked), asked))
    {
      if root != 0 {
        return Some(root);
      }
      shape := Allocate();
      if shape.Some? {
        root := shape.value;
        nodes := map[root := Node(0, [], 0, 0)];
        kids := map[root := []];
      }
    }

    /** The position of a key in a shape. */
    method FindKey(shape: nat, name: string) returns (position: Option<nat>)
      requires shape in nodes
      ensures position.Some? ==> (position.value < |nodes[shape].keys| && nodes[shape].keys[position.value] == name
        && name !in nodes[shape].keys[..position.value])
      ensures position.None? <==> name !in nodes[shape].keys
    {
      var index: nat := 0;
      while index < |nodes[shape].keys|
        invariant index <= |nodes[shape].keys| && name !in nodes[shape].keys[..index]
      {
        if nodes[shape].keys[index] == name {
          return Some(index);
        }
        index := index + 1;
      }
      position := None;
    }

    /** The child of a shape that adds one key. */
    method FindChild(shape: nat, name: string) returns (found: Option<nat>)
      requires Valid(nodes, root, kids) && Complete(nodes, root, shape)
      ensures found.Some? ==> Stands(nodes, root, found.value, nodes[shape].keys + [name])
      ensures found.None? ==> NoExtension(nodes, root, shape, name)
    {
      hide Valid, NoExtension;
      var count := |nodes[shape].keys|;
      var child := nodes[shape].firstChild;
      ChildAt(nodes, root, kids, shape, 0);
      ghost var list, i: nat := kids[shape], 0;
      while child != 0
        invariant i <= |list| && child == At(list, i)
        invariant forall j :: 0 <= j < i ==> KeysOf(nodes, list[j]) != nodes[shape].keys + [name]
        decreases |list| - i
      {
        ChildAt(nodes, root, kids, shape, i);
        if |nodes[child].keys| == count + 1 && nodes[child].keys[count] == name {
          assert nodes[child].keys == nodes[shape].keys + [name];
          return Some(child);
        }
        child := nodes[child].nextSibling;
        i := i + 1;
      }
      ChildAt(nodes, root, kids, shape, i);
      NoneExtends(nodes, root, kids, shape, name);
      found := None;
    }

    /** The key of the shape that extends a shape by some text, when there is such a shape. */
    method ChildKey(shape: nat, text: string) returns (key: Option<string>)
      requires Valid(nodes, root, kids) && Complete(nodes, root, shape)
      ensures key == Some(text) || key == None
      ensures key.Some? <==> exists other :: Stands(nodes, root, other, nodes[shape].keys + [text])
    {
      var child := FindChild(shape, text);
      key := if child.Some? then Some(nodes[child.value].keys[|nodes[shape].keys|]) else None;
    }

    /** The shape that extends a shape by one key, created when there is none. */
    method Transition(shape: nat, name: string) returns (next: Option<nat>)
      requires Valid(nodes, root, kids) && Complete(nodes, root, shape)
      modifies this
      ensures Valid(nodes, root, kids) && Keeps(old(nodes), old(root), nodes, root)
      ensures next.Some? ==> Stands(nodes, root, next.value, old(nodes[shape].keys) + [name])
      ensures (exists other :: Stands(old(nodes), old(root), other, old(nodes[shape].keys) + [name])) ==>
        next.Some? && nodes == old(nodes)
      ensures asked >= old(asked) && (next.None? ==> Exhausted(memory, old(asked), asked))
    {
      hide Valid, NoExtension, Linked, Named;
      next := FindChild(shape, name);
      assert next.None? ==> forall other :: !Stands(nodes, root, other, nodes[shape].keys + [name]) by {
        if next.None? {
          NotStanding(nodes, root, shape, name);
        }
      }
      if next.Some? {
        return;
      }
      next := Allocate();
      if next.None? {
        return;
      }
      var child := next.value;
      LinkedValid(nodes, root, kids, shape, child);
      LinkedChild(nodes, root, kids, shape, child, name);
      nodes := Linked(nodes, shape, child);
      kids := kids[child := []][shape := [child] + kids[shape]];
      // The keys' storage.
      var keys := Allocate();
      if keys.None? {
        return None;
      }
      NamedValid(nodes, root, kids, shape, child, name);
      NamedKeeps(nodes, root, shape, child, name, old(nodes));
      nodes := Named(nodes, shape, child, name);
    }

    /** The shape of a row of keys. */
    method ShapeFor(keys: seq<string>) returns (shape: Option<nat>)
      requires Valid(nodes, root, kids)
      modifies this
      ensures Valid(nodes, root, kids) && Keeps(old(nodes), old(root), nodes, root)
      ensures shape.Some? ==> Stands(nodes, root, shape.value, keys)
      ensures asked >= old(asked) && (shape.None? ==> Exhausted(memory, old(asked), asked))
    {
      hide Valid, Keeps;
      shape := RootShape();
      var index: nat := 0;
      while index < |keys| && shape.Some?
        invariant index <= |keys| && Valid(nodes, root, kids) && Keeps(old(nodes), old(root), nodes, root)
        invariant shape.Some? ==> Stands(nodes, root, shape.value, keys[..index])
        invariant asked >= old(asked) && (shape.None? ==> Exhausted(memory, old(asked), asked))
      {
        ghost var before, beforeRoot := nodes, root;
        shape := Transition(shape.value, keys[index]);
        KeepsChain(old(nodes), old(root), before, beforeRoot, nodes, root);
        assert keys[..index + 1] == keys[..index] + [keys[index]];
        index := index + 1;
      }
      assert index == |keys| ==> keys[..index] == keys;
    }
  }
}
