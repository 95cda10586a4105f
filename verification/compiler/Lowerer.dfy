/** The pass that resolves bindings and collects what closures capture. */
module CaptureAnalysis {
  import opened Syntax
  import opened Evaluator
  import opened Scopes
  import opened Wrappers

  /** What is known of a closure: its identity and its captured bindings, in first-use order. */
  datatype Lowered = Lowered(id: nat, captures: seq<Capture>)

  /** Identities and closures shared by the lowering of one module. */
  class LoweringState {
    var nextBinding: nat
    var nextClosure: nat
    var closures: seq<Lowered>

    constructor ()
      ensures nextBinding == 0 && nextClosure == 0 && closures == []
    {
      nextBinding := 0;
      nextClosure := 0;
      closures := [];
    }
  }

  /** What a lowerer knows, in terms of the scopes around it and its own. */
  ghost predicate Knows(outer: seq<Scope>, scopes: seq<Scope>, locals: seq<nat>, captures: seq<Capture>, next: nat) {
    && |outer| <= |scopes| && scopes[..|outer|] == outer && Distinct(scopes, next)
    && (forall i, name {:trigger scopes[i][name]} :: |outer| <= i < |scopes| && name in scopes[i] ==>
      scopes[i][name] in locals)
    && (forall i, name {:trigger outer[i][name]} :: 0 <= i < |outer| && name in outer[i] ==> outer[i][name] !in locals)
    && (forall id :: id in locals ==> id < next)
    && (forall i {:trigger captures[i]} :: 0 <= i < |captures| ==>
      Resolve(outer, captures[i].name) == Some(captures[i].binding))
  }

  /** The names the lowerer's own scopes bind. */
  ghost function Own(outer: seq<Scope>, scopes: seq<Scope>): set<string> {
    if |outer| <= |scopes| then BoundIn(scopes[|outer|..]) else {}
  }

  lemma OwnPush(outer: seq<Scope>, scopes: seq<Scope>, scope: Scope)
    requires |outer| <= |scopes|
    ensures Own(outer, scopes + [scope]) == Own(outer, scopes) + scope.Keys
  {
    assert (scopes + [scope])[|outer|..] == scopes[|outer|..] + [scope];
    assert (scopes[|outer|..] + [scope])[..|scopes| - |outer|] == scopes[|outer|..];
  }

  lemma OwnNothing(outer: seq<Scope>)
    ensures Own(outer, outer + [map[]]) == {}
  {
    assert (outer + [map[]])[|outer|..] == [map[]];
    assert BoundIn([map[]]) == {};
  }

  /** The scopes after a declaration in the innermost one. */
  ghost function Declaring(scopes: seq<Scope>, name: string, id: nat): seq<Scope>
    requires scopes != []
  {
    scopes[..|scopes| - 1] + [scopes[|scopes| - 1][name := id]]
  }

  lemma DeclareKnows(outer: seq<Scope>, scopes: seq<Scope>, locals: seq<nat>, captures: seq<Capture>, next: nat,
                     name: string)
    requires Knows(outer, scopes, locals, captures, next) && |outer| < |scopes|
    ensures Knows(outer, Declaring(scopes, name, next), locals + [next], captures, next + 1)
    ensures Own(outer, Declaring(scopes, name, next)) == Own(outer, scopes) + {name}
  {
    OwnDeclares(outer, scopes, name, next);
    DeclareDistinct(scopes, next, name);
    DeclareLocals(outer, scopes, locals, captures, next, name);
    hide Resolve, BoundIn, Own, Distinct;
    assert Declaring(scopes, name, next)[..|outer|] == scopes[..|outer|];
  }

  lemma DeclareLocals(outer: seq<Scope>, scopes: seq<Scope>, locals: seq<nat>, captures: seq<Capture>, next: nat,
                      name: string)
    requires Knows(outer, scopes, locals, captures, next) && |outer| < |scopes|
    ensures var after := Declaring(scopes, name, next);
      && (forall i, other {:trigger after[i][other]} :: |outer| <= i < |after| && other in after[i] ==>
        after[i][other] in locals + [next])
      && (forall i, other {:trigger outer[i][other]} :: 0 <= i < |outer| && other in outer[i] ==>
        outer[i][other] !in locals + [next])
  {
    hide Resolve, BoundIn, Own, Distinct;
    var after := Declaring(scopes, name, next);
    forall i, other {:trigger after[i][other]} | |outer| <= i < |after| && other in after[i]
      ensures after[i][other] in locals + [next]
    {
      assert (other in scopes[i] && after[i][other] == scopes[i][other]) || after[i][other] == next;
    }
    forall i, other {:trigger outer[i][other]} | 0 <= i < |outer| && other in outer[i]
      ensures outer[i][other] !in locals + [next]
    {
      assert outer[i] == scopes[i];
      BelowNext(scopes, next, i, other);
    }
  }

  lemma BelowNext(scopes: seq<Scope>, next: nat, i: nat, name: string)
    requires Distinct(scopes, next) && i < |scopes| && name in scopes[i]
    ensures scopes[i][name] < next
  {}

  lemma OwnDeclares(outer: seq<Scope>, scopes: seq<Scope>, name: string, id: nat)
    requires |outer| < |scopes|
    ensures Own(outer, Declaring(scopes, name, id)) == Own(outer, scopes) + {name}
  {
    var last := |scopes| - 1;
    OwnPush(outer, scopes[..last], scopes[last]);
    OwnPush(outer, scopes[..last], scopes[last][name := id]);
    assert scopes == scopes[..last] + [scopes[last]];
  }

  lemma DeclareDistinct(scopes: seq<Scope>, next: nat, name: string)
    requires Distinct(scopes, next) && scopes != []
    ensures Distinct(Declaring(scopes, name, next), next + 1)
  {
    var after := Declaring(scopes, name, next);
    forall i, other | 0 <= i < |scopes| && other in after[i]
      ensures after[i][other] == next ==> i == |scopes| - 1 && other == name
      ensures after[i][other] != next ==> other in scopes[i] && after[i][other] == scopes[i][other]
    {}
  }

  /** The captures after uses of `names` in scopes that bind `bound` themselves; only closures capture. */
  ghost function Noting(inClosure: bool, captures: seq<Capture>, outer: seq<Scope>, bound: set<string>,
                        names: seq<string>): seq<Capture>
  {
    if inClosure then NoteAll(captures, outer, Without(names, bound)) else captures
  }

  lemma NotingIs(inClosure: bool, captures: seq<Capture>, outer: seq<Scope>, bound: set<string>, names: seq<string>)
    ensures Noting(inClosure, captures, outer, bound, names)
         == if inClosure then NoteAll(captures, outer, Without(names, bound)) else captures
  {}

  lemma NotingNothing(inClosure: bool, captures: seq<Capture>, outer: seq<Scope>, bound: set<string>)
    ensures Noting(inClosure, captures, outer, bound, []) == captures
  {}

  lemma NotingAppends(inClosure: bool, captures: seq<Capture>, outer: seq<Scope>, bound: set<string>,
                      first: seq<string>, second: seq<string>)
    ensures Noting(inClosure, captures, outer, bound, first + second)
         == Noting(inClosure, Noting(inClosure, captures, outer, bound, first), outer, bound, second)
  {
    WithoutAppends(first, second, bound);
    NoteAllAppends(captures, outer, Without(first, bound), Without(second, bound));
  }

  lemma NotingBound(inClosure: bool, captures: seq<Capture>, outer: seq<Scope>, bound: set<string>, more: set<string>,
                    names: seq<string>)
    ensures Noting(inClosure, captures, outer, bound, Without(names, more))
        == Noting(inClosure, captures, outer, bound + more, names)
  {
    WithoutTwice(names, more, bound);
    assert more + bound == bound + more;
  }

  /** A visible binding is the lowerer's own exactly when its own scopes bind the name. */
  lemma OwnBinding(outer: seq<Scope>, scopes: seq<Scope>, locals: seq<nat>, captures: seq<Capture>, next: nat,
                   name: string)
    requires Knows(outer, scopes, locals, captures, next) && Resolve(scopes, name).Some?
    ensures Resolve(scopes, name).value in locals <==> name in Own(outer, scopes)
    ensures name !in Own(outer, scopes) ==> Resolve(outer, name) == Resolve(scopes, name)
  {
    var inner := scopes[|outer|..];
    assert scopes == outer + inner;
    ResolveSplits(outer, inner, name);
    if name in Own(outer, scopes) {
      ResolveOccurs(inner, name);
      var i :| 0 <= i < |inner| && name in inner[i] && inner[i][name] == Resolve(inner, name).value;
      assert scopes[|outer| + i] == inner[i];
    } else {
      ResolveOccurs(outer, name);
    }
  }

  /** A binding is captured already exactly when its name is. */
  lemma CapturedByName(outer: seq<Scope>, captures: seq<Capture>, next: nat, name: string)
    requires Distinct(outer, next) && Resolve(outer, name).Some?
    requires forall i {:trigger captures[i]} :: 0 <= i < |captures| ==>
        Resolve(outer, captures[i].name) == Some(captures[i].binding)
    ensures Captured(captures, name) <==> HasBinding(captures, Resolve(outer, name).value)
  {
    forall i | 0 <= i < |captures|
      ensures captures[i].binding == Resolve(outer, name).value <==> captures[i].name == name
    {
      if captures[i].binding == Resolve(outer, name).value {
        ResolveInjective(outer, next, name, captures[i].name);
      }
    }
  }

  lemma OuterDistinct(scopes: seq<Scope>, count: nat, next: nat)
    requires Distinct(scopes, next) && count <= |scopes|
    ensures Distinct(scopes[..count], next)
  {
    var outer := scopes[..count];
    assert forall i :: 0 <= i < count ==> outer[i] == scopes[i];
  }

  /** One use of a name: the binding it resolves to is captured once, unless the lowerer owns it. */
  lemma NotingOne(inClosure: bool, outer: seq<Scope>, scopes: seq<Scope>, locals: seq<nat>, captures: seq<Capture>,
                  next: nat, name: string)
    requires Knows(outer, scopes, locals, captures, next)
    ensures var binding := Resolve(scopes, name);
      Noting(inClosure, captures, outer, Own(outer, scopes), [name]) ==
        if binding.None? || !inClosure || binding.value in locals || HasBinding(captures, binding.value) then captures
        else captures + [Capture(binding.value, name)]
  {
    var bound := Own(outer, scopes);
    assert Without([name], bound) == if name in bound then [] else [name];
    assert [name][..0] == [];
    assert NoteAll(captures, outer, [name]) == Note(captures, outer, name);
    if Resolve(scopes, name).Some? {
      OwnBinding(outer, scopes, locals, captures, next, name);
      if name !in bound {
        OuterDistinct(scopes, |outer|, next);
        CapturedByName(outer, captures, next, name);
      }
    } else {
      assert scopes == outer + scopes[|outer|..];
      ResolveSplits(outer, scopes[|outer|..], name);
      ResolveOccurs(scopes[|outer|..], name);
    }
  }

  /** A new capture keeps what the lowerer knows. */
  lemma CaptureKnows(outer: seq<Scope>, scopes: seq<Scope>, locals: seq<nat>, captures: seq<Capture>, next: nat,
                     name: string)
    requires Knows(outer, scopes, locals, captures, next) && Resolve(scopes, name).Some?
    requires Resolve(scopes, name).value !in locals
    ensures Knows(outer, scopes, locals, captures + [Capture(Resolve(scopes, name).value, name)], next)
  {
    OwnBinding(outer, scopes, locals, captures, next, name);
    hide Resolve, Distinct;
  }

  ghost predicate HasBinding(captures: seq<Capture>, binding: nat) {
    exists i :: 0 <= i < |captures| && captures[i].binding == binding
  }

  ghost predicate Resolved(captures: seq<Capture>, outer: seq<Scope>) {
    forall i {:trigger captures[i]} :: 0 <= i < |captures| ==>
      Resolve(outer, captures[i].name) == Some(captures[i].binding)
  }

  /** The captures of a closure after it inherits those of a closure inside it. */
  ghost function Inherit(captures: seq<Capture>, locals: seq<nat>, inner: seq<Capture>): seq<Capture> {
    if inner == [] then captures
    else
      var before, last := Inherit(captures, locals, inner[..|inner| - 1]), inner[|inner| - 1];
      if last.binding in locals || HasBinding(before, last.binding) then before else before + [last]
  }

  lemma InheritNone(captures: seq<Capture>, locals: seq<nat>)
    ensures Inherit(captures, locals, []) == captures
  {}

  /** One more capture of the closure inside. */
  lemma InheritStep(captures: seq<Capture>, locals: seq<nat>, inner: seq<Capture>, i: nat)
    requires i < |inner|
    ensures var before := Inherit(captures, locals, inner[..i]);
      Inherit(captures, locals, inner[..i + 1]) ==
        if inner[i].binding in locals || HasBinding(before, inner[i].binding) then before else before + [inner[i]]
  {
    assert inner[..i + 1][..i] == inner[..i];
  }

  lemma {:induction false} InheritHas(captures: seq<Capture>, locals: seq<nat>, inner: seq<Capture>, binding: nat)
    requires HasBinding(inner, binding) && binding !in locals
    ensures HasBinding(Inherit(captures, locals, inner), binding)
  {
    var rest, last := inner[..|inner| - 1], inner[|inner| - 1];
    var before, after := Inherit(captures, locals, rest), Inherit(captures, locals, inner);
    assert before <= after;
    if last.binding == binding {
      assert !HasBinding(before, binding) ==> after[|before|].binding == binding;
    } else {
      assert HasBinding(rest, binding);
      InheritHas(captures, locals, rest, binding);
      var i :| 0 <= i < |before| && before[i].binding == binding;
      assert after[i] == before[i];
    }
  }

  lemma {:induction false} NoteAllResolved(captures: seq<Capture>, outer: seq<Scope>, names: seq<string>)
    requires Resolved(captures, outer)
    ensures Resolved(NoteAll(captures, outer, names), outer)
  {
    if names != [] {
      NoteAllResolved(captures, outer, names[..|names| - 1]);
    }
  }

  /** Inheriting the captures of a closure inside is noting its uses. */
  lemma {:induction false} InheritNotes(outer: seq<Scope>, scopes: seq<Scope>, locals: seq<nat>,
                                        captures: seq<Capture>, next: nat, names: seq<string>)
    requires Knows(outer, scopes, locals, captures, next)
    ensures Inherit(captures, locals, NoteAll([], scopes, names))
        == NoteAll(captures, outer, Without(names, Own(outer, scopes)))
  {
    if names != [] {
      var rest, name := names[..|names| - 1], names[|names| - 1];
      InheritNotes(outer, scopes, locals, captures, next, rest);
      assert names == rest + [name];
      WithoutAppends(rest, [name], Own(outer, scopes));
      assert Without([name], Own(outer, scopes)) == if name in Own(outer, scopes) then [] else [name];
      NoteAllAppends(captures, outer, Without(rest, Own(outer, scopes)), Without([name], Own(outer, scopes)));
      NoteAllResolved(captures, outer, Without(rest, Own(outer, scopes)));
      InheritNext(outer, scopes, locals, captures, next, rest, name);
    }
  }

  lemma InheritNext(outer: seq<Scope>, scopes: seq<Scope>, locals: seq<nat>, captures: seq<Capture>, next: nat,
                    rest: seq<string>, name: string)
    requires Knows(outer, scopes, locals, captures, next)
    requires Resolved(Inherit(captures, locals, NoteAll([], scopes, rest)), outer)
    ensures var before := Inherit(captures, locals, NoteAll([], scopes, rest));
      Inherit(captures, locals, Note(NoteAll([], scopes, rest), scopes, name))
        == if name in Own(outer, scopes) then before else NoteAll(before, outer, [name])
  {
    var noted := NoteAll([], scopes, rest);
    var before := Inherit(captures, locals, noted);
    var after := Note(noted, scopes, name);
    if name !in Own(outer, scopes) {
      NotingOneAround(outer, scopes, locals, captures, next, before, name);
    }
    if Resolve(scopes, name).Some? {
      OwnBinding(outer, scopes, locals, captures, next, name);
      if Captured(noted, name) {
        NoteAllResolved([], scopes, rest);
        assert HasBinding(noted, Resolve(scopes, name).value);
        if name !in Own(outer, scopes) {
          InheritHas(captures, locals, noted, Resolve(scopes, name).value);
        }
      } else {
        assert after[..|after| - 1] == noted;
      }
    }
  }

  lemma NotingOneAround(outer: seq<Scope>, scopes: seq<Scope>, locals: seq<nat>, captures: seq<Capture>, next: nat,
                        before: seq<Capture>, name: string)
    requires Knows(outer, scopes, locals, captures, next) && Resolved(before, outer) && name !in Own(outer, scopes)
    ensures NoteAll(before, outer, [name]) ==
      if Resolve(scopes, name).None? || HasBinding(before, Resolve(scopes, name).value) then before
      else before + [Capture(Resolve(scopes, name).value, name)]
  {
    NotingOne(true, outer, scopes, locals, before, next, name);
    assert Without([name], Own(outer, scopes)) == [name];
    if Resolve(scopes, name).Some? {
      OwnBinding(outer, scopes, locals, captures, next, name);
    }
  }

  lemma {:induction false} WithoutNothing(names: seq<string>)
    ensures Without(names, {}) == names
  {
    if names != [] {
      WithoutNothing(names[1..]);
    }
  }

  /** The captures of a closure, from the uses of its body. */
  lemma ClosureNotes(around: seq<Scope>, parameters: List<string>, body: List<Stmt>)
    ensures Noting(true, [], around, {} + NameSet(parameters), UsesOfBlock(body))
         == NoteAll([], around, UsesOf(Closure(parameters, body)))
  {
    NotingBound(true, [], around, {}, NameSet(parameters), UsesOfBlock(body));
    WithoutNothing(UsesOf(Closure(parameters, body)));
  }

  lemma KnowsDistinct(outer: seq<Scope>, scopes: seq<Scope>, locals: seq<nat>, captures: seq<Capture>, next: nat)
    requires Knows(outer, scopes, locals, captures, next)
    ensures Distinct(scopes, next)
  {}

  lemma KnowsLater(outer: seq<Scope>, scopes: seq<Scope>, locals: seq<nat>, captures: seq<Capture>, next: nat,
                   later: nat)
    requires Knows(outer, scopes, locals, captures, next) && next <= later
    ensures Knows(outer, scopes, locals, captures, later)
  {
    hide Resolve;
  }

  class FunctionLowerer {
    var scopes: seq<Scope>
    /** Only closures note captures; the bindings around them are `outer`. */
    const inClosure: bool
    /** The identities of its own declarations: these are never captured. */
    var locals: seq<nat>
    var captures: seq<Capture>
    const state: LoweringState
    ghost const outer: seq<Scope>

    ghost predicate Valid()
      reads this, state
    {
      Knows(outer, scopes, locals, captures, state.nextBinding)
    }

    ghost function Bound(): set<string>
      reads this
    {
      Own(outer, scopes)
    }

    /** The captures after the uses of `names`. */
    ghost function Noted(names: seq<string>): seq<Capture>
      reads this
    {
      Noting(inClosure, captures, outer, Bound(), names)
    }

    constructor Root(state: LoweringState)
      ensures Valid() && this.state == state && !inClosure && captures == [] && outer == [] && Bound() == {}
      ensures |scopes| == 1
    {
      this.state := state;
      inClosure := false;
      scopes := [map[]];
      locals := [];
      captures := [];
      outer := [];
      OwnNothing([]);
    }

    /** A lowerer for one closure, with the scopes around it visible. */
    constructor Closure(around: seq<Scope>, state: LoweringState)
      requires Distinct(around, state.nextBinding)
      ensures Valid() && this.state == state && inClosure && captures == [] && outer == around && Bound() == {}
      ensures |scopes| == |around| + 1
    {
      this.state := state;
      inClosure := true;
      scopes := around + [map[]];
      locals := [];
      captures := [];
      outer := around;
      OwnNothing(around);
    }

    method Push()
      requires Valid()
      modifies this`scopes
      ensures Valid() && scopes == old(scopes) + [map[]] && Bound() == old(Bound())
    {
      OwnPush(outer, scopes, map[]);
      scopes := scopes + [map[]];
    }

    method Pop()
      requires Valid() && |outer| < |scopes|
      modifies this`scopes
      ensures Valid() && scopes == old(scopes[..|scopes| - 1])
    {
      scopes := scopes[..|scopes| - 1];
    }

    /** A new binding in the innermost scope. */
    method Declare(name: string)
      requires Valid() && |outer| < |scopes|
      modifies this`scopes, this`locals, state`nextBinding
      ensures Valid() && Bound() == old(Bound()) + {name}
      ensures |scopes| == |old(scopes)| && scopes[..|scopes| - 1] == old(scopes[..|scopes| - 1])
      ensures state.nextBinding >= old(state.nextBinding)
    {
      hide Knows, Own;
      DeclareKnows(outer, scopes, locals, captures, state.nextBinding, name);
      var id := state.nextBinding;
      state.nextBinding := id + 1;
      var last := |scopes| - 1;
      scopes := scopes[..last] + [scopes[last][name := id]];
      locals := locals + [id];
    }

    method ResolveName(name: string) returns (binding: Option<nat>)
      ensures binding == Resolve(scopes, name)
    {
      var i := |scopes|;
      assert scopes[..i] == scopes;
      while i > 0
        invariant 0 <= i <= |scopes| && Resolve(scopes, name) == Resolve(scopes[..i], name)
      {
        assert scopes[..i][..i - 1] == scopes[..i - 1];
        i := i - 1;
        if name in scopes[i] {
          return Some(scopes[i][name]);
        }
      }
      return None;
    }

    /** The name of a visible binding. */
    method NameOf(binding: nat, ghost use: string) returns (name: string)
      requires Valid() && Resolve(scopes, use) == Some(binding)
      ensures name == use
    {
      ResolveOccurs(scopes, use);
      var i := |scopes|;
      while i > 0
        invariant 0 <= i <= |scopes|
        invariant exists j :: 0 <= j < i && use in scopes[j] && scopes[j][use] == binding
      {
        i := i - 1;
        if candidate: string :| candidate in scopes[i].Keys && scopes[i][candidate] == binding {
          return candidate;
        }
      }
      return "";
    }

    method CaptureIndex(binding: nat) returns (index: Option<nat>)
      ensures index.Some? <==> HasBinding(captures, binding)
    {
      var i := 0;
      while i < |captures|
        invariant i <= |captures| && forall j :: 0 <= j < i ==> captures[j].binding != binding
      {
        if captures[i].binding == binding {
          return Some(i);
        }
        i := i + 1;
      }
      return None;
    }

    /** Captures a visible binding unless this callable owns it or has captured it; `use` is its name. */
    method CaptureBinding(binding: nat, name: Option<string>, ghost use: string)
      requires Valid() && Resolve(scopes, use) == Some(binding) && (name.Some? ==> name.value == use)
      modifies this`captures
      ensures Valid() && captures == old(Noted([use]))
    {
      hide Knows, Resolve, Own, Noting;
      NotingOne(inClosure, outer, scopes, locals, captures, state.nextBinding, use);
      if !inClosure || binding in locals {
        return;
      }
      var index := CaptureIndex(binding);
      if index.None? {
        var known;
        if name.Some? {
          known := name.value;
        } else {
          known := NameOf(binding, use);
        }
        CaptureKnows(outer, scopes, locals, captures, state.nextBinding, use);
        captures := captures + [Capture(binding, known)];
      }
    }

    /** Records one use of a name. */
    method Reference(name: string)
      requires Valid()
      modifies this`captures
      ensures Valid() && captures == old(Noted([name]))
    {
      hide Knows, Resolve, Own, Noting;
      NotingOne(inClosure, outer, scopes, locals, captures, state.nextBinding, name);
      var binding := ResolveName(name);
      if binding.Some? {
        CaptureBinding(binding.value, None, name);
      }
    }

    method LowerBlock(block: List<Stmt>)
      requires Valid()
      modifies this, state
      ensures Valid() && scopes == old(scopes)
      ensures captures == old(Noted(UsesOfBlock(block)))
      ensures old(state.nextBinding) <= state.nextBinding && old(state.closures) <= state.closures
      decreases block, 1
    {
      Push();
      LowerStatements(block);
      Pop();
    }

    /** Lowers statements in the innermost scope. */
    method LowerStatements(block: List<Stmt>)
      requires Valid() && |outer| < |scopes|
      modifies this, state
      ensures Valid() && |scopes| == |old(scopes)| && scopes[..|scopes| - 1] == old(scopes[..|scopes| - 1])
      ensures captures == old(Noted(UsesOfBlock(block)))
      ensures old(state.nextBinding) <= state.nextBinding && old(state.closures) <= state.closures
      decreases block, 0
    {
      hide Knows, Own, Noting, Resolve, UsesOf, UsesOfStmt, Without;
      ghost var c, b := captures, Bound();
      if block.Nil? {
        NotingNothing(inClosure, c, outer, b);
        return;
      }
      var head := block.head;
      if head.Let? {
        NotingAppends(inClosure, c, outer, b, UsesOf(head.value), Without(UsesOfBlock(block.tail), {head.name}));
        LowerExpression(head.value);
        NotingBound(inClosure, captures, outer, b, {head.name}, UsesOfBlock(block.tail));
        Declare(head.name);
      } else {
        NotingAppends(inClosure, c, outer, b, UsesOfStmt(head), UsesOfBlock(block.tail));
        LowerStatement(head);
      }
      LowerStatements(block.tail);
    }

    method LowerStatement(s: Stmt)
      requires Valid() && !s.Let?
      modifies this, state
      ensures Valid() && scopes == old(scopes)
      ensures captures == old(Noted(UsesOfStmt(s)))
      ensures old(state.nextBinding) <= state.nextBinding && old(state.closures) <= state.closures
      decreases s, 1
    {
      ghost var c, b := captures, Bound();
      NotingNothing(inClosure, c, outer, b);
      match s {
        case Assign(_, _) => LowerAssignment(s);
        case Return(None) =>
        case Return(Some(value)) => LowerExpression(value);
        case Block(block) => LowerBlock(block);
        case If(condition, thenBlock, orElse) =>
          NotingAppends(inClosure, c, outer, b, UsesOf(condition) + UsesOfBlock(thenBlock), UsesOfElse(orElse));
          NotingAppends(inClosure, c, outer, b, UsesOf(condition), UsesOfBlock(thenBlock));
          LowerExpression(condition);
          LowerBlock(thenBlock);
          LowerElse(orElse);
        case While(condition, body) =>
          NotingAppends(inClosure, c, outer, b, UsesOf(condition), UsesOfBlock(body));
          LowerExpression(condition);
          LowerBlock(body);
        case For(_, _, _) => LowerFor(s);
        case Break =>
        case Continue =>
        case Do(expression) => LowerExpression(expression);
      }
    }

    /** The binding and the statements of a loop body share one scope. */
    method LowerFor(s: Stmt)
      requires Valid() && s.For?
      modifies this, state
      ensures Valid() && scopes == old(scopes)
      ensures captures == old(Noted(UsesOfStmt(s)))
      ensures old(state.nextBinding) <= state.nextBinding && old(state.closures) <= state.closures
      decreases s, 0
    {
      hide Own, Noting, Resolve, UsesOf, UsesOfBlock, Without;
      ghost var b := Bound();
      NotingAppends(inClosure, captures, outer, b, UsesOf(s.iterable), Without(UsesOfBlock(s.body), {s.binding}));
      LowerExpression(s.iterable);
      NotingBound(inClosure, captures, outer, b, {s.binding}, UsesOfBlock(s.body));
      Push();
      Declare(s.binding);
      LowerStatements(s.body);
      Pop();
    }

    method LowerAssignment(s: Stmt)
      requires Valid() && s.Assign?
      modifies this, state
      ensures Valid() && scopes == old(scopes)
      ensures captures == old(Noted(UsesOfStmt(s)))
      ensures old(state.nextBinding) <= state.nextBinding && old(state.closures) <= state.closures
      decreases s, 0
    {
      ghost var c, b := captures, Bound();
      match s.target {
        case Name(name) =>
          NotingAppends(inClosure, c, outer, b, [name], UsesOf(s.value));
          Reference(name);
        case Element(receiver, index) =>
          NotingAppends(inClosure, c, outer, b, UsesOf(receiver) + UsesOf(index), UsesOf(s.value));
          NotingAppends(inClosure, c, outer, b, UsesOf(receiver), UsesOf(index));
          LowerExpression(receiver);
          LowerExpression(index);
      }
      LowerExpression(s.value);
    }

    method LowerElse(orElse: Else)
      requires Valid()
      modifies this, state
      ensures Valid() && scopes == old(scopes)
      ensures captures == old(Noted(UsesOfElse(orElse)))
      ensures old(state.nextBinding) <= state.nextBinding && old(state.closures) <= state.closures
      decreases orElse, 0
    {
      ghost var c, b := captures, Bound();
      NotingNothing(inClosure, c, outer, b);
      match orElse {
        case NoElse =>
        case ElseBlock(block) => LowerBlock(block);
        case ElseIf(condition, thenBlock, rest) =>
          NotingAppends(inClosure, c, outer, b, UsesOf(condition) + UsesOfBlock(thenBlock), UsesOfElse(rest));
          NotingAppends(inClosure, c, outer, b, UsesOf(condition), UsesOfBlock(thenBlock));
          LowerExpression(condition);
          LowerBlock(thenBlock);
          LowerElse(rest);
      }
    }

    method LowerExpression(e: Expr)
      requires Valid()
      modifies this, state
      ensures Valid() && scopes == old(scopes)
      ensures captures == old(Noted(UsesOf(e)))
      ensures old(state.nextBinding) <= state.nextBinding && old(state.closures) <= state.closures
      decreases e, 1
    {
      ghost var c, b := captures, Bound();
      NotingNothing(inClosure, c, outer, b);
      match e {
        case Constant(_) =>
        case Variable(name) => Reference(name);
        case Unary(_, operand) => LowerExpression(operand);
        case Binary(_, left, right) =>
          NotingAppends(inClosure, c, outer, b, UsesOf(left), UsesOf(right));
          LowerExpression(left);
          LowerExpression(right);
        case Index(receiver, index) =>
          NotingAppends(inClosure, c, outer, b, UsesOf(receiver), UsesOf(index));
          LowerExpression(receiver);
          LowerExpression(index);
        case Make(_, elements) => LowerAll(elements);
        case Call(callee, arguments) =>
          NotingAppends(inClosure, c, outer, b, [callee], UsesOfAll(arguments));
          Reference(callee);
          LowerAll(arguments);
        case Closure(_, _) => LowerClosure(e);
        case Match(value, arms) =>
          NotingAppends(inClosure, c, outer, b, UsesOf(value), UsesOfArms(arms));
          LowerExpression(value);
          LowerArms(arms);
      }
    }

    method LowerAll(es: List<Expr>)
      requires Valid()
      modifies this, state
      ensures Valid() && scopes == old(scopes)
      ensures captures == old(Noted(UsesOfAll(es)))
      ensures old(state.nextBinding) <= state.nextBinding && old(state.closures) <= state.closures
      decreases es, 0
    {
      ghost var c, b := captures, Bound();
      NotingNothing(inClosure, c, outer, b);
      if es.Cons? {
        NotingAppends(inClosure, c, outer, b, UsesOf(es.head), UsesOfAll(es.tail));
        LowerExpression(es.head);
        LowerAll(es.tail);
      }
    }

    method LowerArms(arms: List<Arm>)
      requires Valid()
      modifies this, state
      ensures Valid() && scopes == old(scopes)
      ensures captures == old(Noted(UsesOfArms(arms)))
      ensures old(state.nextBinding) <= state.nextBinding && old(state.closures) <= state.closures
      decreases arms, 0
    {
      hide Knows, Own, Noting, Resolve, UsesOfArmBody, Without;
      ghost var c, b := captures, Bound();
      NotingNothing(inClosure, c, outer, b);
      if arms.Cons? {
        ghost var bound := NameSet(Bindings(arms.head.pattern));
        NotingAppends(inClosure, c, outer, b, Without(UsesOfArmBody(arms.head.body), bound), UsesOfArms(arms.tail));
        LowerArm(arms.head);
        LowerArms(arms.tail);
      }
    }

    /** The names of the pattern and the body share one scope. */
    method LowerArm(arm: Arm)
      requires Valid()
      modifies this, state
      ensures Valid() && scopes == old(scopes)
      ensures captures == old(Noted(Without(UsesOfArmBody(arm.body), NameSet(Bindings(arm.pattern)))))
      ensures old(state.nextBinding) <= state.nextBinding && old(state.closures) <= state.closures
      decreases arm
    {
      hide Own, Noting, Resolve, UsesOf, UsesOfBlock, Without;
      var bound := Bindings(arm.pattern);
      NotingBound(inClosure, captures, outer, Bound(), NameSet(bound), UsesOfArmBody(arm.body));
      Push();
      DeclareAll(bound);
      match arm.body {
        case Value(value) => LowerExpression(value);
        case Body(block) => LowerBlock(block);
      }
      Pop();
    }

    method DeclareAll(names: List<string>)
      requires Valid() && |outer| < |scopes|
      modifies this`scopes, this`locals, state`nextBinding
      ensures Valid() && Bound() == old(Bound()) + NameSet(names)
      ensures |scopes| == |old(scopes)| && scopes[..|scopes| - 1] == old(scopes[..|scopes| - 1])
      ensures state.nextBinding >= old(state.nextBinding)
      decreases names
    {
      if names.Cons? {
        Declare(names.head);
        DeclareAll(names.tail);
      }
    }

    /** Captures what a closure inside captured, unless this callable owns it. */
    method PassOn(inner: seq<Capture>, ghost names: seq<string>)
      requires Valid() && inner == NoteAll([], scopes, names)
      modifies this`captures
      ensures Valid() && captures == old(Noted(names))
    {
      hide Knows, Resolve, Own, NoteAll, Noting, HasBinding, BoundIn, Inherit;
      ghost var c := captures;
      assert inner[..0] == [];
      InheritNone(c, locals);
      InheritNotes(outer, scopes, locals, c, state.nextBinding, names);
      NotingIs(inClosure, c, outer, Bound(), names);
      NoteAllResolved([], scopes, names);
      var i := 0;
      while i < |inner|
        invariant i <= |inner| && Valid()
        invariant captures == if inClosure then Inherit(c, locals, inner[..i]) else c
      {
        ghost var before := captures;
        NotingOne(inClosure, outer, scopes, locals, captures, state.nextBinding, inner[i].name);
        CaptureBinding(inner[i].binding, Some(inner[i].name), inner[i].name);
        InheritStep(c, locals, inner, i);
        i := i + 1;
      }
      assert inner[..i] == inner;
    }

    /** Lowers a closure and passes its captures on to the callable around it. */
    method LowerClosure(e: Expr)
      requires Valid() && e.Closure?
      modifies this, state
      ensures Valid() && scopes == old(scopes)
      ensures captures == old(Noted(UsesOf(e)))
      ensures old(state.nextBinding) <= state.nextBinding && old(state.closures) <= state.closures
      ensures |state.closures| > |old(state.closures)|
      ensures state.closures[|state.closures| - 1] == Lowered(old(state.nextClosure), NoteAll([], scopes, UsesOf(e)))
      decreases e, 0
    {
      var id := state.nextClosure;
      state.nextClosure := id + 1;
      KnowsDistinct(outer, scopes, locals, captures, state.nextBinding);
      hide Knows, Distinct, Own, Noting, Resolve, UsesOf;
      var lowerer := new FunctionLowerer.Closure(scopes, state);
      ClosureNotes(scopes, e.parameters, e.body);
      lowerer.DeclareAll(e.parameters);
      lowerer.LowerBlock(e.body);
      KnowsLater(outer, scopes, locals, captures, old(state.nextBinding), state.nextBinding);
      PassOn(lowerer.captures, UsesOf(e));
      state.closures := state.closures + [Lowered(id, lowerer.captures)];
    }
  }

  /** Lowers a declared function: nothing around it is in scope, and it captures nothing, whatever names it uses. */
  method LowerFunction(parameters: List<string>, body: List<Stmt>, state: LoweringState)
    returns (captures: seq<Capture>)
    modifies state
    ensures captures == []
    ensures old(state.nextBinding) <= state.nextBinding && old(state.closures) <= state.closures
  {
    var lowerer := new FunctionLowerer.Root(state);
    lowerer.DeclareAll(parameters);
    lowerer.LowerBlock(body);
    captures := lowerer.captures;
  }
}
