/** Structural equality of values that may be cyclic, and how far the runtime decides it natively. */
module DeepEquality {
  import opened FloatEquality
  import opened Wrappers

  /** What a reference leads to; parts are references again. */
  datatype Node =
    | IntNode(value: int)
    | FloatNode(bits: FloatBits)
    | Text(bytes: seq<nat>)
    | Octets(bytes: seq<nat>)
    | ListNode(items: seq<nat>)
    | ErrorNode(kind: nat, message: nat, data: nat, cause: nat)
    | EnumNode(tag: EnumTag, payload: seq<nat>)
    | TypedNode(typeId: nat, slots: seq<nat>)
    | ObjectNode(keys: seq<string>, values: seq<nat>)
    | Identity

  /** An enum of the program, or one that keeps its identity and variant name. */
  datatype EnumTag = Declared(typeId: nat, variant: nat) | Host(typeId: nat, identity: string, name: string)

  /**
    * A heap and what belongs to it: the Float an Int converts to, what a declared variant is called, which types
    * compare with a method of their own, and what those methods say.
    */
  datatype World = World(
    nodes: map<nat, Node>,
    asFloat: int -> FloatBits,
    variantNames: (nat, nat) -> Option<(string, string)>,
    custom: nat -> bool,
    customEqual: (nat, nat) -> bool)

  datatype Verdict = Same | Different | Structural

  const NATIVE_DEPTH: nat := 32
  /** The reference of None, which stands for an empty slot. */
  const NONE: nat := 1

  /** Objects of one type have as many slots, and the keys of an Object differ. */
  ghost predicate Valid(w: World) {
    && (forall raw {:trigger w.nodes[raw]} :: raw in w.nodes && w.nodes[raw].ObjectNode? ==>
         |w.nodes[raw].keys| == |w.nodes[raw].values| && Unique(w.nodes[raw].keys))
    && (forall raw, other {:trigger w.nodes[raw], w.nodes[other]} ::
         (raw in w.nodes && other in w.nodes && w.nodes[raw].TypedNode? && w.nodes[other].TypedNode?
          && w.nodes[raw].typeId == w.nodes[other].typeId) ==> |w.nodes[raw].slots| == |w.nodes[other].slots|)
  }

  ghost predicate Unique(keys: seq<string>) {
    forall i, j :: 0 <= i < j < |keys| ==> keys[i] != keys[j]
  }

  function NodeAt(w: World, raw: nat): Node {
    if raw in w.nodes then w.nodes[raw] else Identity
  }

  predicate IsNumber(node: Node) {
    node.IntNode? || node.FloatNode?
  }

  function FloatOf(w: World, node: Node): FloatBits
    requires IsNumber(node)
  {
    if node.IntNode? then w.asFloat(node.value) else node.bits
  }

  predicate NumbersEqual(w: World, left: Node, right: Node)
    requires IsNumber(left) && IsNumber(right)
  {
    if left.IntNode? && right.IntNode? then left.value == right.value
      else FloatsEqual(FloatOf(w, left), FloatOf(w, right))
  }

  function Decided(equal: bool): Verdict {
    if equal then Same else Different
  }

  function Candidate(equal: bool): Verdict {
    if equal then Structural else Different
  }

  function Names(w: World, tag: EnumTag): Option<(string, string)> {
    match tag
    case Declared(typeId, variant) => w.variantNames(typeId, variant)
    case Host(_, identity, name) => Some((identity, name))
  }

  /** Two enum values: decided by their variants, unless those agree and carry something. */
  function EnumEquality(w: World, left: Node, right: Node): Verdict
    requires left.EnumNode? && right.EnumNode?
  {
    var sameVariant :=
      if left.tag.Host? || right.tag.Host? then
        Names(w, left.tag).Some? && Names(w, left.tag) == Names(w, right.tag)
      else left.tag == right.tag;
    if !sameVariant || |left.payload| != |right.payload| then Different
    else if |left.payload| == 0 then Same
    else Structural
  }

  /** What two values themselves decide; `Structural` leaves it to their parts. */
  function Equality(w: World, left: nat, right: nat): Verdict {
    var l, r := NodeAt(w, left), NodeAt(w, right);
    if left == right then Same
    else if IsNumber(l) && IsNumber(r) then Decided(NumbersEqual(w, l, r))
    else if l.Text? && r.Text? then Decided(l.bytes == r.bytes)
    else if l.Octets? && r.Octets? then Decided(l.bytes == r.bytes)
    else if l.ListNode? && r.ListNode? then Candidate(|l.items| == |r.items|)
    else if l.ErrorNode? && r.ErrorNode? then Structural
    else if l.EnumNode? && r.EnumNode? then EnumEquality(w, l, r)
    else if l.TypedNode? && r.TypedNode? then Candidate(l.typeId == r.typeId)
    else if l.TypedNode? || r.TypedNode? then Different
    else if l.ObjectNode? && r.ObjectNode? then Candidate(|l.keys| == |r.keys|)
    else Different
  }

  function Present(raw: nat): nat {
    if raw == 0 then NONE else raw
  }

  function PresentAll(slots: seq<nat>): (parts: seq<nat>)
    ensures |parts| == |slots|
  {
    seq(|slots|, i requires 0 <= i < |slots| => Present(slots[i]))
  }

  /** The parts of a composite value other than an untyped Object. */
  function PartsOf(w: World, raw: nat): seq<nat> {
    match NodeAt(w, raw)
    case ListNode(items) => items
    case TypedNode(_, slots) => PresentAll(slots)
    case EnumNode(_, payload) => PresentAll(payload)
    case ErrorNode(kind, message, data, cause) => PresentAll([kind, message, data, cause])
    case _ => []
  }

  function CustomKind(w: World, raw: nat): bool {
    match NodeAt(w, raw)
    case TypedNode(typeId, _) => w.custom(typeId)
    case EnumNode(tag, _) => w.custom(tag.typeId)
    case _ => false
  }

  function FindKey(keys: seq<string>, key: string, from: nat): (found: Option<nat>)
    ensures found.Some? ==> from <= found.value < |keys| && keys[found.value] == key
    ensures found.None? ==> forall i :: from <= i < |keys| ==> keys[i] != key
    decreases |keys| - from
  {
    if from >= |keys| then None else if keys[from] == key then Some(from) else FindKey(keys, key, from + 1)
  }

  /** Compares two values part by part where the runtime can. */
  function Deep(w: World, left: nat, right: nat, depth: nat): Verdict
    requires Valid(w)
    decreases NATIVE_DEPTH - depth, 1
  {
    var outcome := Equality(w, left, right);
    if outcome != Structural then outcome
    else if depth >= NATIVE_DEPTH || CustomKind(w, left) then Structural
    else if NodeAt(w, left).ObjectNode? then DeepEntries(w, left, right, 0, depth)
    else DeepParts(w, PartsOf(w, left), PartsOf(w, right), 0, depth)
  }

  /** The verdict on all pairs from `from` on: the first that is not `Same`, if there is one. */
  function DeepParts(w: World, left: seq<nat>, right: seq<nat>, from: nat, depth: nat): Verdict
    requires Valid(w) && depth < NATIVE_DEPTH
    decreases NATIVE_DEPTH - depth, 0, |left| - from
  {
    if from >= |left| || from >= |right| then Same
    else
      var outcome := Deep(w, left[from], right[from], depth + 1);
      if outcome != Same then outcome else DeepParts(w, left, right, from + 1, depth)
  }

  /** Compares the values of untyped Objects under each key of the left one. */
  function DeepEntries(w: World, left: nat, right: nat, from: nat, depth: nat): Verdict
    requires Valid(w) && depth < NATIVE_DEPTH && NodeAt(w, left).ObjectNode?
    decreases NATIVE_DEPTH - depth, 0, |NodeAt(w, left).keys| - from
  {
    var l, r := NodeAt(w, left), NodeAt(w, right);
    if from >= |l.keys| || !r.ObjectNode? then Same
    else
      var position := FindKey(r.keys, l.keys[from], 0);
      if position.None? then Different
      else
        var outcome := Deep(w, l.values[from], r.values[position.value], depth + 1);
        if outcome != Same then outcome else DeepEntries(w, left, right, from + 1, depth)
  }

  // ---- Recursive structural equality ----

  ghost function KeySet(keys: seq<string>): set<string> {
    set i | 0 <= i < |keys| :: keys[i]
  }

  /** The same variant of the same enum: by what they are, or, when one is a host's, by what they are called. */
  ghost predicate SameVariant(w: World, one: EnumTag, other: EnumTag) {
    match (one, other)
    case (Declared(typeId, variant), Declared(otherType, otherVariant)) =>
      typeId == otherType && variant == otherVariant
    case (Host(_, identity, name), Host(_, otherIdentity, otherName)) =>
      identity == otherIdentity && name == otherName
    case (Declared(typeId, variant), Host(_, identity, name)) =>
      w.variantNames(typeId, variant) == Some((identity, name))
    case (Host(_, identity, name), Declared(typeId, variant)) =>
      w.variantNames(typeId, variant) == Some((identity, name))
  }

  /**
    * Equal as far as `steps` steps into the parts can tell: the same reference, or two values of one kind, numbers
    * with the same value, texts and octets with the same bytes, and composites that are equal part by part.
    */
  ghost predicate EqualUpTo(w: World, left: nat, right: nat, steps: nat)
    requires Valid(w)
    decreases steps, 0
  {
    var r := NodeAt(w, right);
    (steps > 0 && left != right) ==>
      match NodeAt(w, left)
      case IntNode(value) => (r.IntNode? && value == r.value) || (r.FloatNode? && SameNumber(w.asFloat(value), r.bits))
      case FloatNode(bits) =>
        (r.IntNode? && SameNumber(bits, w.asFloat(r.value))) || (r.FloatNode? && SameNumber(bits, r.bits))
      case Text(bytes) => r.Text? && r.bytes == bytes
      case Octets(bytes) => r.Octets? && r.bytes == bytes
      case ListNode(items) => r.ListNode? && ItemsEqual(w, items, r.items, steps - 1)
      case ErrorNode(kind, message, data, cause) =>
        r.ErrorNode? && SlotsEqual(w, [kind, message, data, cause], [r.kind, r.message, r.data, r.cause], steps - 1)
      case EnumNode(tag, payload) =>
        && r.EnumNode? && SameVariant(w, tag, r.tag) && |payload| == |r.payload|
        && (payload == [] ||
             if w.custom(tag.typeId) then w.customEqual(left, right) else SlotsEqual(w, payload, r.payload, steps - 1))
      case TypedNode(typeId, slots) =>
        && r.TypedNode? && typeId == r.typeId
        && if w.custom(typeId) then w.customEqual(left, right) else SlotsEqual(w, slots, r.slots, steps - 1)
      case ObjectNode(keys, values) =>
        && r.ObjectNode? && KeySet(keys) == KeySet(r.keys)
        && forall i, j {:trigger keys[i], r.keys[j]} :: 0 <= i < |keys| && 0 <= j < |r.keys| && keys[i] == r.keys[j] ==>
             EqualUpTo(w, values[i], r.values[j], steps - 1)
      case Identity => false
  }

  ghost predicate ItemsEqual(w: World, left: seq<nat>, right: seq<nat>, steps: nat)
    requires Valid(w)
    decreases steps, 1
  {
    |left| == |right| && forall i {:trigger left[i]} :: 0 <= i < |left| ==> EqualUpTo(w, left[i], right[i], steps)
  }

  /** Slots are equal when what they hold is: an empty one holds None. */
  ghost predicate SlotsEqual(w: World, left: seq<nat>, right: seq<nat>, steps: nat)
    requires Valid(w)
    decreases steps, 1
  {
    && |left| == |right|
    && forall i {:trigger left[i]} :: 0 <= i < |left| ==>
         EqualUpTo(w, if left[i] == 0 then NONE else left[i], if right[i] == 0 then NONE else right[i], steps)
  }

  /** Equal in every part, at any distance: also between cyclic values. */
  ghost predicate Equal(w: World, left: nat, right: nat)
    requires Valid(w)
  {
    forall steps :: EqualUpTo(w, left, right, steps)
  }

  lemma StructuralParts(w: World, left: nat, right: nat)
    requires Valid(w) && Equality(w, left, right) == Structural
    ensures NodeAt(w, left).ObjectNode? <==> NodeAt(w, right).ObjectNode?
    ensures NodeAt(w, left).ObjectNode? ==> |NodeAt(w, left).keys| == |NodeAt(w, right).keys|
    ensures !NodeAt(w, left).ObjectNode? ==> |PartsOf(w, left)| == |PartsOf(w, right)|
  {}

  // ---- One step by verdicts is one step into the parts ----

  lemma {:induction false} KeysCount(keys: seq<string>)
    requires Unique(keys)
    ensures |KeySet(keys)| == |keys|
  {
    if keys != [] {
      var rest, last := keys[..|keys| - 1], keys[|keys| - 1];
      KeysCount(rest);
      assert KeySet(keys) == KeySet(rest) + {last};
      assert last !in KeySet(rest);
    }
  }

  /** As many different keys, all of them among the others, are the same keys. */
  lemma SameKeys(left: seq<string>, right: seq<string>)
    requires Unique(left) && Unique(right) && |left| == |right|
    requires forall i :: 0 <= i < |left| ==> FindKey(right, left[i], 0).Some?
    ensures forall i :: 0 <= i < |right| ==> FindKey(left, right[i], 0).Some?
  {
    KeysCount(left);
    KeysCount(right);
    forall key | key in KeySet(left) ensures key in KeySet(right) {
      var i :| 0 <= i < |left| && left[i] == key;
      assert right[FindKey(right, left[i], 0).value] == key;
    }
    SubsetOfSize(KeySet(left), KeySet(right));
    forall i | 0 <= i < |right| ensures FindKey(left, right[i], 0).Some? {
      assert right[i] in KeySet(left);
      var j :| 0 <= j < |left| && left[j] == right[i];
    }
  }

  lemma SubsetOfSize(small: set<string>, large: set<string>)
    requires small <= large && |small| == |large|
    ensures small == large
  {
    assert large == small + (large - small);
    assert |large| == |small| + |large - small|;
  }

  /** What the comparison of two values themselves leaves to their parts. */
  ghost predicate PartsDecide(w: World, left: nat, right: nat, steps: nat)
    requires Valid(w)
  {
    if CustomKind(w, left) then w.customEqual(left, right)
    else if NodeAt(w, left).ObjectNode? then EntriesAgree(w, left, right, steps)
    else ItemsEqual(w, PartsOf(w, left), PartsOf(w, right), steps)
  }

  /** The right Object has every key of the left one, with an equal value. */
  ghost predicate EntriesAgree(w: World, left: nat, right: nat, steps: nat)
    requires Valid(w) && NodeAt(w, left).ObjectNode?
  {
    var l, r := NodeAt(w, left), NodeAt(w, right);
    r.ObjectNode? && forall i {:trigger l.keys[i]} :: 0 <= i < |l.keys| ==>
      var position := FindKey(r.keys, l.keys[i], 0);
      position.Some? && EqualUpTo(w, l.values[i], r.values[position.value], steps)
  }

  lemma NumbersByValue(w: World, left: Node, right: Node)
    requires IsNumber(left) && IsNumber(right)
    ensures NumbersEqual(w, left, right) <==>
      if left.IntNode? && right.IntNode? then left.value == right.value
      else SameNumber(FloatOf(w, left), FloatOf(w, right))
  {
    FloatsEqualByValue(FloatOf(w, left), FloatOf(w, right));
  }

  lemma SlotsArePresent(w: World, left: seq<nat>, right: seq<nat>, steps: nat)
    requires Valid(w)
    ensures SlotsEqual(w, left, right, steps) <==> ItemsEqual(w, PresentAll(left), PresentAll(right), steps)
  {
    hide EqualUpTo, Valid;
    var l, r := PresentAll(left), PresentAll(right);
    if |left| == |right| {
      forall i | 0 <= i < |left|
        ensures l[i] == (if left[i] == 0 then NONE else left[i]) && r[i] == (if right[i] == 0 then NONE else right[i])
      {}
    }
  }

  lemma {:induction false} KeysFound(left: seq<string>, right: seq<string>)
    requires Unique(left) && Unique(right)
    ensures KeySet(left) == KeySet(right) <==>
      |left| == |right| && forall i :: 0 <= i < |left| ==> FindKey(right, left[i], 0).Some?
  {
    KeysCount(left);
    KeysCount(right);
    if KeySet(left) == KeySet(right) {
      forall i | 0 <= i < |left| ensures FindKey(right, left[i], 0).Some? {
        assert left[i] in KeySet(right);
      }
    }
    if |left| == |right| && forall i :: 0 <= i < |left| ==> FindKey(right, left[i], 0).Some? {
      SameKeys(left, right);
      forall key | key in KeySet(left) ensures key in KeySet(right) {
        var i :| 0 <= i < |left| && left[i] == key;
        assert right[FindKey(right, left[i], 0).value] == key;
      }
      SubsetOfSize(KeySet(left), KeySet(right));
    }
  }

  lemma EntriesByKey(w: World, left: nat, right: nat, steps: nat)
    requires Valid(w) && steps > 0 && left != right && NodeAt(w, left).ObjectNode? && NodeAt(w, right).ObjectNode?
    ensures EqualUpTo(w, left, right, steps) <==>
      |NodeAt(w, left).keys| == |NodeAt(w, right).keys| && EntriesAgree(w, left, right, steps - 1)
  {
    var l, r := NodeAt(w, left), NodeAt(w, right);
    ObjectKeys(w, left);
    ObjectKeys(w, right);
    KeysFound(l.keys, r.keys);
    if KeySet(l.keys) == KeySet(r.keys) {
      EntriesPaired(w, left, right, steps - 1);
    }
  }

  lemma ObjectKeys(w: World, raw: nat)
    requires Valid(w) && NodeAt(w, raw).ObjectNode?
    ensures |NodeAt(w, raw).keys| == |NodeAt(w, raw).values| && Unique(NodeAt(w, raw).keys)
  {}

  lemma EntriesPaired(w: World, left: nat, right: nat, steps: nat)
    requires Valid(w) && NodeAt(w, left).ObjectNode? && NodeAt(w, right).ObjectNode?
    requires forall i :: 0 <= i < |NodeAt(w, left).keys| ==>
      FindKey(NodeAt(w, right).keys, NodeAt(w, left).keys[i], 0).Some?
    ensures EntriesAgree(w, left, right, steps) <==>
      forall i, j {:trigger NodeAt(w, left).keys[i], NodeAt(w, right).keys[j]} ::
        0 <= i < |NodeAt(w, left).keys| && 0 <= j < |NodeAt(w, right).keys|
        && NodeAt(w, left).keys[i] == NodeAt(w, right).keys[j] ==>
          EqualUpTo(w, NodeAt(w, left).values[i], NodeAt(w, right).values[j], steps)
  {
    ObjectKeys(w, left);
    ObjectKeys(w, right);
    hide EqualUpTo, Valid, NodeAt;
    var l, r := NodeAt(w, left), NodeAt(w, right);
    forall i, j | 0 <= i < |l.keys| && 0 <= j < |r.keys| && l.keys[i] == r.keys[j]
      ensures FindKey(r.keys, l.keys[i], 0) == Some(j)
    {}
  }

  /** The verdict on two values themselves, and the parts it leaves open, say whether they are equal. */
  lemma StepByVerdict(w: World, left: nat, right: nat, steps: nat)
    requires Valid(w) && steps > 0
    ensures EqualUpTo(w, left, right, steps) <==>
      Equality(w, left, right) != Different
      && (Equality(w, left, right) == Structural ==> PartsDecide(w, left, right, steps - 1))
  {
    var l, r := NodeAt(w, left), NodeAt(w, right);
    if left != right {
      if IsNumber(l) && IsNumber(r) {
        NumbersByValue(w, l, r);
      } else if l.ObjectNode? && r.ObjectNode? {
        EntriesByKey(w, left, right, steps);
      } else if l.EnumNode? && r.EnumNode? {
        SlotsArePresent(w, l.payload, r.payload, steps - 1);
      } else if l.TypedNode? && r.TypedNode? {
        SlotsArePresent(w, l.slots, r.slots, steps - 1);
      } else if l.ErrorNode? && r.ErrorNode? {
        SlotsArePresent(w, [l.kind, l.message, l.data, l.cause], [r.kind, r.message, r.data, r.cause], steps - 1);
      }
    }
  }

  // ---- Definite verdicts are right ----

  lemma NoSteps(w: World, left: nat, right: nat)
    requires Valid(w)
    ensures EqualUpTo(w, left, right, 0)
  {}

  /** "Same" holds at every distance. */
  lemma {:induction false} SameIsEqual(w: World, left: nat, right: nat, depth: nat, steps: nat)
    requires Valid(w) && Deep(w, left, right, depth) == Same
    ensures EqualUpTo(w, left, right, steps)
    decreases NATIVE_DEPTH - depth, 1
  {
    hide Equality, PartsOf, CustomKind, EqualUpTo;
    if steps > 0 {
      StepByVerdict(w, left, right, steps);
    } else {
      NoSteps(w, left, right);
    }
    if steps > 0 && Equality(w, left, right) == Structural {
      StructuralParts(w, left, right);
      if NodeAt(w, left).ObjectNode? {
        EntriesEqual(w, left, right, 0, depth, steps - 1);
      } else {
        PartsEqual(w, PartsOf(w, left), PartsOf(w, right), 0, depth, steps - 1);
      }
    }
  }

  lemma {:induction false} PartsEqual(w: World, left: seq<nat>, right: seq<nat>, from: nat, depth: nat, steps: nat)
    requires Valid(w) && depth < NATIVE_DEPTH && |left| == |right|
    requires DeepParts(w, left, right, from, depth) == Same
    ensures forall i {:trigger left[i]} :: from <= i < |left| ==> EqualUpTo(w, left[i], right[i], steps)
    decreases NATIVE_DEPTH - depth, 0, |left| - from
  {
    hide Deep, EqualUpTo;
    if from < |left| {
      SameIsEqual(w, left[from], right[from], depth + 1, steps);
      PartsEqual(w, left, right, from + 1, depth, steps);
    }
  }

  lemma {:induction false} EntriesEqual(w: World, left: nat, right: nat, from: nat, depth: nat, steps: nat)
    requires Valid(w) && depth < NATIVE_DEPTH && NodeAt(w, left).ObjectNode? && NodeAt(w, right).ObjectNode?
    requires DeepEntries(w, left, right, from, depth) == Same
    ensures forall i {:trigger NodeAt(w, left).keys[i]} :: from <= i < |NodeAt(w, left).keys| ==>
      var position := FindKey(NodeAt(w, right).keys, NodeAt(w, left).keys[i], 0);
      position.Some? && EqualUpTo(w, NodeAt(w, left).values[i], NodeAt(w, right).values[position.value], steps)
    decreases NATIVE_DEPTH - depth, 0, |NodeAt(w, left).keys| - from
  {
    hide Deep, EqualUpTo;
    var l, r := NodeAt(w, left), NodeAt(w, right);
    if from < |l.keys| {
      var position := FindKey(r.keys, l.keys[from], 0).value;
      SameIsEqual(w, l.values[from], r.values[position], depth + 1, steps);
      EntriesEqual(w, left, right, from + 1, depth, steps);
    }
  }

  /** "Different" is a difference at some distance. */
  lemma {:induction false} DifferentIsUnequal(w: World, left: nat, right: nat, depth: nat) returns (steps: nat)
    requires Valid(w) && Deep(w, left, right, depth) == Different
    ensures !EqualUpTo(w, left, right, steps)
    decreases NATIVE_DEPTH - depth, 1
  {
    hide Equality, PartsOf, CustomKind, EqualUpTo;
    steps := 1;
    StepByVerdict(w, left, right, 1);
    if Equality(w, left, right) == Structural {
      StructuralParts(w, left, right);
      var at;
      if NodeAt(w, left).ObjectNode? {
        at, steps := EntriesUnequal(w, left, right, 0, depth);
        assert NodeAt(w, left).keys[at] == NodeAt(w, left).keys[at];
      } else {
        at, steps := PartsUnequal(w, PartsOf(w, left), PartsOf(w, right), 0, depth);
        assert PartsOf(w, left)[at] == PartsOf(w, left)[at];
      }
      steps := steps + 1;
      StepByVerdict(w, left, right, steps);
    }
  }

  lemma {:induction false} PartsUnequal(w: World, left: seq<nat>, right: seq<nat>, from: nat, depth: nat)
    returns (at: nat, steps: nat)
    requires Valid(w) && depth < NATIVE_DEPTH && |left| == |right|
    requires DeepParts(w, left, right, from, depth) == Different
    ensures at < |left| && !EqualUpTo(w, left[at], right[at], steps)
    decreases NATIVE_DEPTH - depth, 0, |left| - from
  {
    hide Deep, EqualUpTo;
    if Deep(w, left[from], right[from], depth + 1) == Different {
      at := from;
      steps := DifferentIsUnequal(w, left[from], right[from], depth + 1);
    } else {
      at, steps := PartsUnequal(w, left, right, from + 1, depth);
    }
  }

  lemma {:induction false} EntriesUnequal(w: World, left: nat, right: nat, from: nat, depth: nat)
    returns (at: nat, steps: nat)
    requires Valid(w) && depth < NATIVE_DEPTH && NodeAt(w, left).ObjectNode? && NodeAt(w, right).ObjectNode?
    requires DeepEntries(w, left, right, from, depth) == Different
    ensures at < |NodeAt(w, left).keys|
    ensures var position := FindKey(NodeAt(w, right).keys, NodeAt(w, left).keys[at], 0);
      position.Some? ==> !EqualUpTo(w, NodeAt(w, left).values[at], NodeAt(w, right).values[position.value], steps)
    decreases NATIVE_DEPTH - depth, 0, |NodeAt(w, left).keys| - from
  {
    hide Deep, EqualUpTo;
    var l, r := NodeAt(w, left), NodeAt(w, right);
    var position := FindKey(r.keys, l.keys[from], 0);
    at, steps := from, 0;
    if position.Some? {
      if Deep(w, l.values[from], r.values[position.value], depth + 1) == Different {
        steps := DifferentIsUnequal(w, l.values[from], r.values[position.value], depth + 1);
      } else {
        at, steps := EntriesUnequal(w, left, right, from + 1, depth);
      }
    }
  }

  /** A definite verdict is the truth about recursive structural equality, cyclic values included. */
  lemma VerdictsAreSound(w: World, left: nat, right: nat)
    requires Valid(w)
    ensures Deep(w, left, right, 0) == Same ==> Equal(w, left, right)
    ensures Deep(w, left, right, 0) == Different ==> !Equal(w, left, right)
  {
    if Deep(w, left, right, 0) == Same {
      forall steps ensures EqualUpTo(w, left, right, steps) {
        SameIsEqual(w, left, right, 0, steps);
      }
    }
    if Deep(w, left, right, 0) == Different {
      var steps := DifferentIsUnequal(w, left, right, 0);
    }
  }

  // ---- When the runtime decides ----

  /** Parts of two values that are compared with each other. */
  ghost predicate Paired(w: World, left: nat, right: nat, l: nat, r: nat) {
    var one, other := NodeAt(w, left), NodeAt(w, right);
    if one.ObjectNode? && other.ObjectNode? then
      exists i, j :: 0 <= i < |one.keys| && i < |one.values| && 0 <= j < |other.keys| && j < |other.values|
        && one.keys[i] == other.keys[j] && l == one.values[i] && r == other.values[j]
    else
      exists i :: 0 <= i < |PartsOf(w, left)| && i < |PartsOf(w, right)|
        && l == PartsOf(w, left)[i] && r == PartsOf(w, right)[i]
  }

  /** From two values through parts compared with each other down to the last two. */
  ghost predicate Leads(w: World, left: nat, right: nat, path: seq<(nat, nat)>) {
    && path != [] && path[0] == (left, right)
    && forall i :: 0 <= i < |path| - 1 ==> Paired(w, path[i].0, path[i].1, path[i + 1].0, path[i + 1].1)
  }

  lemma LeadsFurther(w: World, left: nat, right: nat, l: nat, r: nat, path: seq<(nat, nat)>)
    requires Paired(w, left, right, l, r) && Leads(w, l, r, path)
    ensures Leads(w, left, right, [(left, right)] + path)
  {
    hide Paired;
  }

  /** The verdict is open only if a type with a method of its own is reached, or the limit of nesting. */
  lemma {:induction false} OpenReaches(w: World, left: nat, right: nat, depth: nat) returns (path: seq<(nat, nat)>)
    requires Valid(w) && depth <= NATIVE_DEPTH && Deep(w, left, right, depth) == Structural
    ensures Leads(w, left, right, path)
    ensures CustomKind(w, path[|path| - 1].0) || |path| == NATIVE_DEPTH - depth + 1
    decreases NATIVE_DEPTH - depth, 1
  {
    hide PartsOf, Paired, CustomKind;
    path := [(left, right)];
    if depth < NATIVE_DEPTH && !CustomKind(w, left) {
      StructuralParts(w, left, right);
      hide Equality;
      var l, r;
      if NodeAt(w, left).ObjectNode? {
        l, r, path := EntriesOpen(w, left, right, 0, depth);
      } else {
        var i;
        i, path := PartsOpen(w, PartsOf(w, left), PartsOf(w, right), 0, depth);
        l, r := PartsOf(w, left)[i], PartsOf(w, right)[i];
        PairedParts(w, left, right, i);
      }
      LeadsFurther(w, left, right, l, r, path);
      path := [(left, right)] + path;
    }
  }

  lemma PairedParts(w: World, left: nat, right: nat, i: nat)
    requires !NodeAt(w, left).ObjectNode? && i < |PartsOf(w, left)| && i < |PartsOf(w, right)|
    ensures Paired(w, left, right, PartsOf(w, left)[i], PartsOf(w, right)[i])
  {}

  lemma {:induction false} PartsOpen(w: World, left: seq<nat>, right: seq<nat>, from: nat, depth: nat)
    returns (at: nat, path: seq<(nat, nat)>)
    requires Valid(w) && depth < NATIVE_DEPTH && |left| == |right|
    requires DeepParts(w, left, right, from, depth) == Structural
    ensures at < |left| && Leads(w, left[at], right[at], path)
    ensures CustomKind(w, path[|path| - 1].0) || |path| == NATIVE_DEPTH - depth
    decreases NATIVE_DEPTH - depth, 0, |left| - from
  {
    hide Deep, Leads, CustomKind;
    if Deep(w, left[from], right[from], depth + 1) == Structural {
      at := from;
      path := OpenReaches(w, left[from], right[from], depth + 1);
      LeadsSomewhere(w, left[from], right[from], path);
    } else {
      at, path := PartsOpen(w, left, right, from + 1, depth);
    }
  }

  lemma LeadsSomewhere(w: World, left: nat, right: nat, path: seq<(nat, nat)>)
    requires Leads(w, left, right, path)
    ensures |path| > 0
  {}

  lemma {:induction false} EntriesOpen(w: World, left: nat, right: nat, from: nat, depth: nat)
    returns (l: nat, r: nat, path: seq<(nat, nat)>)
    requires Valid(w) && depth < NATIVE_DEPTH && NodeAt(w, left).ObjectNode? && NodeAt(w, right).ObjectNode?
    requires DeepEntries(w, left, right, from, depth) == Structural
    ensures Paired(w, left, right, l, r) && Leads(w, l, r, path)
    ensures CustomKind(w, path[|path| - 1].0) || |path| == NATIVE_DEPTH - depth
    decreases NATIVE_DEPTH - depth, 0, |NodeAt(w, left).keys| - from
  {
    hide Deep, Leads, CustomKind;
    ValuesThere(w, left);
    ValuesThere(w, right);
    var one, other := NodeAt(w, left), NodeAt(w, right);
    var position := FindKey(other.keys, one.keys[from], 0).value;
    if Deep(w, one.values[from], other.values[position], depth + 1) == Structural {
      l, r := one.values[from], other.values[position];
      path := OpenReaches(w, l, r, depth + 1);
      LeadsSomewhere(w, l, r, path);
    } else {
      l, r, path := EntriesOpen(w, left, right, from + 1, depth);
    }
  }

  // ---- Swapping the arguments ----

  /** The methods of types are symmetric, and enums that may be equal agree on having one. */
  ghost predicate Symmetric(w: World) {
    && (forall a, b :: w.customEqual(a, b) == w.customEqual(b, a))
    && (forall one, other {:trigger SameVariant(w, one, other)} :: SameVariant(w, one, other) ==>
      w.custom(one.typeId) == w.custom(other.typeId))
  }

  lemma CustomAgrees(w: World, left: nat, right: nat)
    requires Symmetric(w) && Equality(w, left, right) == Structural
    ensures CustomKind(w, left) == CustomKind(w, right)
  {
    var l, r := NodeAt(w, left), NodeAt(w, right);
    if l.EnumNode? && r.EnumNode? {
      assert SameVariant(w, l.tag, r.tag);
    }
  }

  lemma EqualitySwaps(w: World, left: nat, right: nat)
    ensures Equality(w, left, right) == Equality(w, right, left)
  {}

  /** Equality up to any distance is symmetric. */
  lemma {:induction false} EqualSwaps(w: World, left: nat, right: nat, steps: nat)
    requires Valid(w) && Symmetric(w) && EqualUpTo(w, left, right, steps)
    ensures EqualUpTo(w, right, left, steps)
    decreases steps, 1
  {
    if steps > 0 {
      StepByVerdict(w, left, right, steps);
      StepByVerdict(w, right, left, steps);
      EqualitySwaps(w, left, right);
      if Equality(w, left, right) == Structural {
        CustomAgrees(w, left, right);
        StructuralParts(w, left, right);
        hide Equality, PartsOf, CustomKind, EqualUpTo;
        if !CustomKind(w, left) {
          if NodeAt(w, left).ObjectNode? {
            EntriesSwap(w, left, right, steps);
          } else {
            ItemsSwap(w, PartsOf(w, left), PartsOf(w, right), steps - 1);
          }
        }
      }
    }
  }

  lemma {:induction false} ItemsSwap(w: World, left: seq<nat>, right: seq<nat>, steps: nat)
    requires Valid(w) && Symmetric(w) && ItemsEqual(w, left, right, steps)
    ensures ItemsEqual(w, right, left, steps)
    decreases steps, 2
  {
    hide EqualUpTo, Symmetric;
    forall i {:trigger right[i]} | 0 <= i < |right| ensures EqualUpTo(w, right[i], left[i], steps) {
      assert left[i] == left[i];
      EqualSwaps(w, left[i], right[i], steps);
    }
  }

  lemma {:induction false} EntriesSwap(w: World, left: nat, right: nat, steps: nat)
    requires Valid(w) && Symmetric(w) && steps > 0 && NodeAt(w, left).ObjectNode? && NodeAt(w, right).ObjectNode?
    requires |NodeAt(w, left).keys| == |NodeAt(w, right).keys|
    requires forall i {:trigger NodeAt(w, left).keys[i]} :: 0 <= i < |NodeAt(w, left).keys| ==>
      var position := FindKey(NodeAt(w, right).keys, NodeAt(w, left).keys[i], 0);
      position.Some? && EqualUpTo(w, NodeAt(w, left).values[i], NodeAt(w, right).values[position.value], steps - 1)
    ensures forall i {:trigger NodeAt(w, right).keys[i]} :: 0 <= i < |NodeAt(w, right).keys| ==>
      var position := FindKey(NodeAt(w, left).keys, NodeAt(w, right).keys[i], 0);
      position.Some? && EqualUpTo(w, NodeAt(w, right).values[i], NodeAt(w, left).values[position.value], steps - 1)
    decreases steps, 0
  {
    hide Symmetric, EqualUpTo;
    var l, r := NodeAt(w, left), NodeAt(w, right);
    SameKeys(l.keys, r.keys);
    forall i {:trigger r.keys[i]} | 0 <= i < |r.keys|
      ensures var position := FindKey(l.keys, r.keys[i], 0);
        position.Some? && EqualUpTo(w, r.values[i], l.values[position.value], steps - 1)
    {
      var position := FindKey(l.keys, r.keys[i], 0).value;
      assert l.keys[position] == r.keys[i];
      assert FindKey(r.keys, l.keys[position], 0).value == i;
      EqualSwaps(w, l.values[position], r.values[i], steps - 1);
    }
  }

  // ---- Definite verdicts ask no method ----

  /** The same heap in a program whose types have no methods of their own. */
  function Plainly(w: World): World {
    w.(custom := _ => false, customEqual := (_, _) => false)
  }

  lemma PlainlyAlike(w: World, left: nat, right: nat)
    ensures Valid(w) ==> Valid(Plainly(w))
    ensures Equality(Plainly(w), left, right) == Equality(w, left, right)
    ensures PartsOf(Plainly(w), left) == PartsOf(w, left) && NodeAt(Plainly(w), left) == NodeAt(w, left)
    ensures !CustomKind(Plainly(w), left)
  {}

  lemma PlainlySymmetric(w: World)
    ensures Symmetric(Plainly(w))
  {
    forall a, b ensures CustomKind(Plainly(w), a) == CustomKind(Plainly(w), b) {
      PlainlyAlike(w, a, b);
      PlainlyAlike(w, b, a);
    }
  }

  /** A definite verdict is the same whatever methods the types have. */
  lemma {:induction false} DefiniteWithout(w: World, left: nat, right: nat, depth: nat)
    requires Valid(w) && Valid(Plainly(w)) && Deep(w, left, right, depth) != Structural
    ensures Deep(Plainly(w), left, right, depth) == Deep(w, left, right, depth)
    decreases NATIVE_DEPTH - depth, 1
  {
    PlainlyAlike(w, left, right);
    PlainlyAlike(w, right, left);
    hide Equality, PartsOf, CustomKind, NodeAt, Valid, Plainly;
    if Equality(w, left, right) == Structural {
      if NodeAt(w, left).ObjectNode? {
        EntriesWithout(w, left, right, 0, depth);
      } else {
        PartsWithout(w, PartsOf(w, left), PartsOf(w, right), 0, depth);
      }
    }
  }

  lemma {:induction false} PartsWithout(w: World, left: seq<nat>, right: seq<nat>, from: nat, depth: nat)
    requires Valid(w) && Valid(Plainly(w)) && depth < NATIVE_DEPTH
    requires DeepParts(w, left, right, from, depth) != Structural
    ensures DeepParts(Plainly(w), left, right, from, depth) == DeepParts(w, left, right, from, depth)
    decreases NATIVE_DEPTH - depth, 0, |left| - from
  {
    hide Deep, Valid, Plainly;
    if from < |left| && from < |right| {
      DefiniteWithout(w, left[from], right[from], depth + 1);
      if Deep(w, left[from], right[from], depth + 1) == Same {
        PartsWithout(w, left, right, from + 1, depth);
      }
    }
  }

  lemma {:induction false} EntriesWithout(w: World, left: nat, right: nat, from: nat, depth: nat)
    requires Valid(w) && Valid(Plainly(w)) && depth < NATIVE_DEPTH && NodeAt(w, left).ObjectNode?
    requires NodeAt(Plainly(w), left) == NodeAt(w, left) && NodeAt(Plainly(w), right) == NodeAt(w, right)
    requires DeepEntries(w, left, right, from, depth) != Structural
    ensures DeepEntries(Plainly(w), left, right, from, depth) == DeepEntries(w, left, right, from, depth)
    decreases NATIVE_DEPTH - depth, 0, |NodeAt(w, left).keys| - from
  {
    ValuesThere(w, left);
    ValuesThere(w, right);
    hide Deep, Valid, Plainly, NodeAt;
    var l, r := NodeAt(w, left), NodeAt(w, right);
    if from < |l.keys| && r.ObjectNode? {
      var position := FindKey(r.keys, l.keys[from], 0);
      if position.Some? {
        DefiniteWithout(w, l.values[from], r.values[position.value], depth + 1);
        if Deep(w, l.values[from], r.values[position.value], depth + 1) == Same {
          EntriesWithout(w, left, right, from + 1, depth);
        }
      }
    }
  }

  lemma ValuesThere(w: World, raw: nat)
    requires Valid(w)
    ensures NodeAt(w, raw).ObjectNode? ==> |NodeAt(w, raw).keys| == |NodeAt(w, raw).values|
  {}

  lemma SwappedPlainly(w: World, left: nat, right: nat)
    requires Valid(w) && Symmetric(w)
    ensures Deep(w, left, right, 0) == Same ==> Deep(w, right, left, 0) != Different
    ensures Deep(w, left, right, 0) == Different ==> Deep(w, right, left, 0) != Same
  {
    hide Deep, Symmetric, Valid, EqualUpTo;
    VerdictsAreSound(w, left, right);
    VerdictsAreSound(w, right, left);
    if Equal(w, left, right) {
      forall steps ensures EqualUpTo(w, right, left, steps) {
        EqualSwaps(w, left, right, steps);
      }
    }
    if Equal(w, right, left) {
      forall steps ensures EqualUpTo(w, left, right, steps) {
        EqualSwaps(w, right, left, steps);
      }
    }
  }

  /** Swapping the arguments never turns one definite verdict into the other, whatever the methods of types say. */
  lemma SwappedVerdicts(w: World, left: nat, right: nat)
    requires Valid(w)
    ensures Deep(w, left, right, 0) == Same ==> Deep(w, right, left, 0) != Different
    ensures Deep(w, left, right, 0) == Different ==> Deep(w, right, left, 0) != Same
  {
    PlainlyAlike(w, left, right);
    PlainlySymmetric(w);
    hide Deep, Symmetric, Valid, Plainly;
    SwappedPlainly(Plainly(w), left, right);
    if Deep(w, left, right, 0) != Structural && Deep(w, right, left, 0) != Structural {
      DefiniteWithout(w, left, right, 0);
      DefiniteWithout(w, right, left, 0);
    }
  }
}
