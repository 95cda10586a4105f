/** Lexical scopes that give every binding an identity, and the list of bindings a closure captures. */
module Scopes {
  import opened Evaluator
  import opened Wrappers

  type Scope = map<string, nat>

  datatype Capture = Capture(binding: nat, name: string)

  /** The innermost visible declaration of a name. */
  ghost function Resolve(scopes: seq<Scope>, name: string): Option<nat> {
    if scopes == [] then None
    else
      var last := scopes[|scopes| - 1];
      if name in last then Some(last[name]) else Resolve(scopes[..|scopes| - 1], name)
  }

  /** Every binding has an identity of its own, below `next`. */
  ghost predicate Distinct(scopes: seq<Scope>, next: nat) {
    && (forall i, name {:trigger scopes[i][name]} :: 0 <= i < |scopes| && name in scopes[i] ==> scopes[i][name] < next)
    && (forall i, name, j, other {:trigger scopes[i][name], scopes[j][other]} ::
         (0 <= i < |scopes| && name in scopes[i] && 0 <= j < |scopes| && other in scopes[j]
          && scopes[i][name] == scopes[j][other]) ==> i == j && name == other)
  }

  ghost function BoundIn(scopes: seq<Scope>): set<string> {
    if scopes == [] then {} else BoundIn(scopes[..|scopes| - 1]) + scopes[|scopes| - 1].Keys
  }

  lemma {:induction false} ResolveOccurs(scopes: seq<Scope>, name: string)
    ensures Resolve(scopes, name).Some? <==> name in BoundIn(scopes)
    ensures Resolve(scopes, name).Some? ==>
      exists i :: 0 <= i < |scopes| && name in scopes[i] && scopes[i][name] == Resolve(scopes, name).value
  {
    if scopes != [] && name !in scopes[|scopes| - 1] {
      var rest := scopes[..|scopes| - 1];
      ResolveOccurs(rest, name);
      if Resolve(rest, name).Some? {
        var i :| 0 <= i < |rest| && name in rest[i] && rest[i][name] == Resolve(rest, name).value;
        assert name in scopes[i] && scopes[i][name] == Resolve(scopes, name).value;
      }
    }
  }

  /** A name resolves in the inner scopes when they bind it, and around them otherwise. */
  lemma {:induction false} ResolveSplits(outer: seq<Scope>, inner: seq<Scope>, name: string)
    ensures Resolve(outer + inner, name) == if name in BoundIn(inner) then Resolve(inner, name)
        else Resolve(outer, name)
  {
    if inner == [] {
      assert outer + inner == outer;
    } else {
      var rest := inner[..|inner| - 1];
      assert (outer + inner)[..|outer + inner| - 1] == outer + rest;
      ResolveSplits(outer, rest, name);
      ResolveOccurs(inner, name);
    }
  }

  /** Distinct bindings have distinct names as far as they are visible. */
  lemma ResolveInjective(scopes: seq<Scope>, next: nat, name: string, other: string)
    requires Distinct(scopes, next) && Resolve(scopes, name).Some? && Resolve(scopes, name) == Resolve(scopes, other)
    ensures name == other && Resolve(scopes, name).value < next
  {
    ResolveOccurs(scopes, name);
    ResolveOccurs(scopes, other);
  }

  // ---- Capture lists ----

  ghost predicate Captured(captures: seq<Capture>, name: string) {
    exists i :: 0 <= i < |captures| && captures[i].name == name
  }

  /** The list after a use of `name`: a binding of the enclosing scopes is added at its first use. */
  ghost function Note(captures: seq<Capture>, outer: seq<Scope>, name: string): seq<Capture> {
    var binding := Resolve(outer, name);
    if binding.None? || Captured(captures, name) then captures else captures + [Capture(binding.value, name)]
  }

  ghost function NoteAll(captures: seq<Capture>, outer: seq<Scope>, names: seq<string>): seq<Capture> {
    if names == [] then captures
    else Note(NoteAll(captures, outer, names[..|names| - 1]), outer, names[|names| - 1])
  }

  lemma {:induction false} NoteAllAppends(captures: seq<Capture>, outer: seq<Scope>, first: seq<string>,
                                          second: seq<string>)
    ensures NoteAll(captures, outer, first + second) == NoteAll(NoteAll(captures, outer, first), outer, second)
  {
    if second == [] {
      assert first + second == first;
    } else {
      assert (first + second)[..|first + second| - 1] == first + second[..|second| - 1];
      NoteAllAppends(captures, outer, first, second[..|second| - 1]);
    }
  }

  lemma {:induction false} WithoutAppends(first: seq<string>, second: seq<string>, bound: set<string>)
    ensures Without(first + second, bound) == Without(first, bound) + Without(second, bound)
  {
    if first == [] {
      assert first + second == second;
    } else {
      assert (first + second)[1..] == first[1..] + second;
      WithoutAppends(first[1..], second, bound);
    }
  }

  lemma {:induction false} WithoutTwice(names: seq<string>, first: set<string>, second: set<string>)
    ensures Without(Without(names, first), second) == Without(names, first + second)
  {
    if names != [] {
      WithoutTwice(names[1..], first, second);
      WithoutAppends(if names[0] in first then [] else [names[0]], Without(names[1..], first), second);
    }
  }

  // ---- What the list is ----

  ghost predicate FirstAt(names: seq<string>, name: string, at: nat) {
    at < |names| && names[at] == name && name !in names[..at]
  }

  /** The list holds exactly the enclosing bindings among the names, once each, in the order of their first uses. */
  ghost predicate ExactCaptures(captures: seq<Capture>, outer: seq<Scope>, names: seq<string>) {
    && (forall name :: Captured(captures, name) <==> name in names && Resolve(outer, name).Some?)
    && (forall i :: 0 <= i < |captures| ==> Resolve(outer, captures[i].name) == Some(captures[i].binding))
    && (forall i, j, a, b {:trigger FirstAt(names, captures[i].name, a), FirstAt(names, captures[j].name, b)} ::
         0 <= i < j < |captures| && FirstAt(names, captures[i].name, a) && FirstAt(names, captures[j].name, b) ==>
           a < b)
    && (forall i, j :: 0 <= i < j < |captures| ==> captures[i].name != captures[j].name)
  }

  lemma {:induction false} NoteAllExact(outer: seq<Scope>, names: seq<string>)
    ensures ExactCaptures(NoteAll([], outer, names), outer, names)
  {
    if names != [] {
      NoteAllExact(outer, names[..|names| - 1]);
      NoteExact(NoteAll([], outer, names[..|names| - 1]), outer, names[..|names| - 1], names[|names| - 1]);
      assert names == names[..|names| - 1] + [names[|names| - 1]];
    }
  }

  lemma NoteExact(captures: seq<Capture>, outer: seq<Scope>, names: seq<string>, name: string)
    requires ExactCaptures(captures, outer, names)
    ensures ExactCaptures(Note(captures, outer, name), outer, names + [name])
  {
    var noted, more := Note(captures, outer, name), names + [name];
    assert forall i :: 0 <= i < |captures| ==> noted[i] == captures[i];
    forall other ensures Captured(noted, other) <==> other in more && Resolve(outer, other).Some? {
      assert Captured(captures, other) ==> Captured(noted, other);
      if noted != captures {
        assert noted[|captures|].name == name;
      }
    }
    forall i | 0 <= i < |captures| ensures captures[i].name in names {
      assert Captured(captures, captures[i].name);
    }
    forall i, j, a, b | 0 <= i < j < |noted| && FirstAt(more, noted[i].name, a) && FirstAt(more, noted[j].name, b)
      ensures a < b
    {
      FirstStays(names, name, noted[i].name, a);
      if j < |captures| {
        FirstStays(names, name, noted[j].name, b);
      } else {
        assert noted[j].name == name && name !in names;
      }
    }
  }

  lemma FirstStays(names: seq<string>, last: string, name: string, at: nat)
    requires FirstAt(names + [last], name, at) && name in names
    ensures FirstAt(names, name, at)
  {
    var more := names + [last];
    assert more[..|names|] == names;
    assert at <= |names| ==> more[..at] == names[..at];
  }

  /** Restricting an environment to the uses of a closure is restricting it to the captures. */
  lemma CapturesRestrict(captures: seq<Capture>, outer: seq<Scope>, names: seq<string>, env: Env)
    requires ExactCaptures(captures, outer, names)
    requires forall name :: name in env <==> Resolve(outer, name).Some?
    ensures Restrict(env, names) == map name | name in env && Captured(captures, name) :: env[name]
  {}
}
