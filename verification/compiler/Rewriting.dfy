/** Changing the code and the environments of all closures in a store, and nothing else. */
module Rewriting {
  import opened Syntax
  import opened Evaluator
  import opened Substitution
  import opened Wrappers

  /**
    * `Inlining` is what the constant inliner does to a closure when the first `cells` locations hold the constants:
    * each module has its own. `Lifting` keeps only the bindings a closure captures.
    */
  datatype Rewrite = Inlining(constants: seq<Constants>, cells: nat) | Lifting

  function ConstantsOf(constants: seq<Constants>, home: nat): Constants {
    if home < |constants| then constants[home] else Constants(map[], {})
  }

  /** The environment without the bindings of constants. */
  ghost function Strip(env: Env, cells: nat): Env {
    map name | name in env && env[name] >= cells :: env[name]
  }

  ghost function Rewritten(r: Rewrite, code: Code): Code {
    match r
    case Inlining(constants, cells) =>
      var env := Strip(code.env, cells);
      var c := ConstantsOf(constants, code.home);
      Code(code.home, code.parameters, InlineBlock(c, env.Keys + NameSet(code.parameters), code.body), env)
    case Lifting =>
      Code(code.home, code.parameters, code.body, Restrict(code.env, UsesOf(Closure(code.parameters, code.body))))
  }

  ghost function RewriteValue(r: Rewrite, value: Value): Value
    decreases value
  {
    match value
    case Data(_) => value
    case Reference(_) => value
    case Tuple(tag, items) => Tuple(tag, RewriteValues(r, items))
    case Callable(code) => Callable(Rewritten(r, code))
  }

  ghost function RewriteValues(r: Rewrite, values: List<Value>): (rewritten: List<Value>)
    ensures Length(rewritten) == Length(values)
    decreases values
  {
    if values.Nil? then Nil else Cons(RewriteValue(r, values.head), RewriteValues(r, values.tail))
  }

  ghost function RewriteStore(r: Rewrite, store: Store): (rewritten: Store)
    ensures |rewritten| == |store|
    ensures forall i {:trigger rewritten[i]} {:trigger store[i]} :: 0 <= i < |store| ==>
        rewritten[i] == RewriteValue(r, store[i])
  {
    seq(|store|, i requires 0 <= i < |store| => RewriteValue(r, store[i]))
  }

  ghost function RewriteOutcome(r: Rewrite, outcome: Outcome): Outcome {
    match outcome
    case Done(value, store) => Done(RewriteValue(r, value), RewriteStore(r, store))
    case Returned(value, store) => Returned(RewriteValue(r, value), RewriteStore(r, store))
    case Broken(store) => Broken(RewriteStore(r, store))
    case Continued(store) => Continued(RewriteStore(r, store))
    case Failed => Failed
    case Timeout => Timeout
  }

  // ---- Steps that evaluate nothing do not look into closures ----

  lemma PushRewrites(r: Rewrite, value: Value, store: Store)
    ensures RewriteStore(r, store + [value]) == RewriteStore(r, store) + [RewriteValue(r, value)]
  {}

  lemma ReadRewrites(r: Rewrite, location: nat, store: Store)
    ensures Read(location, RewriteStore(r, store)) == RewriteOutcome(r, Read(location, store))
  {
    hide Rewritten;
  }

  lemma WriteRewrites(r: Rewrite, location: nat, value: Value, store: Store)
    ensures Write(location, RewriteValue(r, value), RewriteStore(r, store))
        == RewriteOutcome(r, Write(location, value, store))
  {
    hide Rewritten;
    if location < |store| {
      assert RewriteStore(r, store[location := value]) == RewriteStore(r, store)[location := RewriteValue(r, value)];
    }
  }

  lemma BehindRewrites(r: Rewrite, value: Value, store: Store)
    ensures Behind(value, store).None? ==> Behind(RewriteValue(r, value), RewriteStore(r, store)).None?
    ensures Behind(value, store).Some? ==>
      Behind(RewriteValue(r, value), RewriteStore(r, store)) == Some(RewriteValue(r, Behind(value, store).value))
  {
    hide Rewritten;
  }

  lemma SeeRewrites(r: Rewrite, value: Value, store: Store)
    ensures See(RewriteValue(r, value), RewriteStore(r, store)) == See(value, store)
  {
    BehindRewrites(r, value, store);
    hide Rewritten, RewriteStore, Behind;
  }

  lemma RespondRewrites(r: Rewrite, answer: Answer, operand: Value, store: Store)
    ensures Respond(answer, RewriteValue(r, operand), RewriteStore(r, store))
         == RewriteOutcome(r, Respond(answer, operand, store))
  {
    hide Rewritten;
    if answer.response.Raises? {
      PushRewrites(r, Tuple(answer.response.kind, Nil), store);
    }
  }

  lemma {:induction false} ItemRewrites(r: Rewrite, items: List<Value>, index: nat)
    ensures ItemAt(items, index).None? ==> ItemAt(RewriteValues(r, items), index).None?
    ensures ItemAt(items, index).Some? ==>
      ItemAt(RewriteValues(r, items), index) == Some(RewriteValue(r, ItemAt(items, index).value))
  {
    hide Rewritten;
    if items.Cons? && index > 0 {
      ItemRewrites(r, items.tail, index - 1);
    }
  }

  lemma {:induction false} WithItemRewrites(r: Rewrite, items: List<Value>, index: nat, item: Value)
    ensures WithItem(RewriteValues(r, items), index, RewriteValue(r, item))
        == RewriteValues(r, WithItem(items, index, item))
  {
    hide Rewritten;
    if items.Cons? && index > 0 {
      WithItemRewrites(r, items.tail, index - 1, item);
    }
  }

  lemma LookupRewrites(r: Rewrite, receiver: Value, index: Value, store: Store)
    ensures Lookup(RewriteValue(r, receiver), RewriteValue(r, index), RewriteStore(r, store))
         == RewriteOutcome(r, Lookup(receiver, index, store))
  {
    BehindRewrites(r, receiver, store);
    assert Position(RewriteValue(r, index)) == Position(index);
    if Behind(receiver, store).Some? && Position(index).Some? {
      ItemRewrites(r, Behind(receiver, store).value.items, Position(index).value);
    }
    hide Rewritten, RewriteStore, Behind, Position;
  }

  lemma UpdateRewrites(r: Rewrite, receiver: Value, index: Value, value: Value, store: Store)
    ensures Update(RewriteValue(r, receiver), RewriteValue(r, index), RewriteValue(r, value), RewriteStore(r, store))
         == RewriteOutcome(r, Update(receiver, index, value, store))
  {
    BehindRewrites(r, receiver, store);
    assert Position(RewriteValue(r, index)) == Position(index);
    if Behind(receiver, store).Some? && Position(index).Some? {
      var behind, position := Behind(receiver, store).value, Position(index).value;
      ItemRewrites(r, behind.items, position);
      WithItemRewrites(r, behind.items, position, value);
      WriteRewrites(r, receiver.location, Tuple(behind.tag, WithItem(behind.items, position, value)), store);
    }
    hide Rewritten, RewriteStore, Write, Position;
  }

  lemma AllocateRewrites(r: Rewrite, tag: string, items: Value, store: Store)
    ensures Allocate(tag, RewriteValue(r, items), RewriteStore(r, store))
        == RewriteOutcome(r, Allocate(tag, items, store))
  {
    hide Rewritten;
    if items.Tuple? {
      PushRewrites(r, Tuple(tag, items.items), store);
    }
  }

  lemma {:induction false} BindStoreRewrites(r: Rewrite, values: List<Value>, store: Store)
    ensures BindStore(RewriteValues(r, values), RewriteStore(r, store)) == RewriteStore(r, BindStore(values, store))
  {
    hide Rewritten, RewriteStore;
    if values.Cons? {
      PushRewrites(r, values.head, store);
      BindStoreRewrites(r, values.tail, store + [values.head]);
    }
  }

  lemma MatchedRewrites(r: Rewrite, pattern: Pattern, value: Value, store: Store)
    ensures Matched(pattern, value, store).None? ==>
        Matched(pattern, RewriteValue(r, value), RewriteStore(r, store)).None?
    ensures Matched(pattern, value, store).Some? ==>
      && Length(Matched(pattern, value, store).value) == Length(Bindings(pattern))
      && Matched(pattern, RewriteValue(r, value), RewriteStore(r, store))
        == Some(RewriteValues(r, Matched(pattern, value, store).value))
  {
    BehindRewrites(r, value, store);
    hide Rewritten, RewriteStore, Behind;
  }
}
