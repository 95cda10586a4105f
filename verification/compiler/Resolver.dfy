/** Resolving constants whose values name other constants. */
module ConstantResolution {
  import opened Syntax
  import opened Wrappers

  /** A constant's declared value and the module that declares it. */
  datatype ConstDeclaration = ConstDeclaration(value: Expr, owner: nat)

  datatype ResolveError =
    | NotConstant   // E0119
    | Cycle         // E0121
    | Undeclared    // no diagnostic

  /**
    * The constants of a project by canonical name, and the canonical names of the names each module may use.
    */
  datatype Project = Project(declarations: map<string, ConstDeclaration>, bindings: seq<map<string, string>>)

  predicate ValidProject(p: Project) {
    forall name :: name in p.declarations ==> p.declarations[name].owner < |p.bindings|
  }

  /** The forms a constant's value may have, other than the name of another constant. */
  predicate LiteralForm(e: Expr) {
    match e
    case Constant(_) => true
    case Unary(operator, operand) =>
      operator == "-" && operand.Constant? && (operand.literal.Integer? || operand.literal.Float?)
    case _ => false
  }

  /** The constant a constant's value names, when it names one. */
  function Next(p: Project, name: string): Option<string>
    requires ValidProject(p)
  {
    if name !in p.declarations then None
    else
      var declaration := p.declarations[name];
      if !declaration.value.Variable? then None
      else
        var binding := p.bindings[declaration.owner];
        var spelled := declaration.value.name;
        if spelled in binding && binding[spelled] in p.declarations then Some(binding[spelled]) else None
  }

  /** The constant reached after `steps` references. */
  ghost function Reach(p: Project, name: string, steps: nat): Option<string>
    requires ValidProject(p)
    decreases steps
  {
    if steps == 0 then Some(name)
    else
      var next := Next(p, name);
      if next.None? then None else Reach(p, next.value, steps - 1)
  }

  /** The chain of references ends in a literal. */
  ghost predicate EndsIn(p: Project, name: string, value: Expr)
    requires ValidProject(p)
  {
    exists steps: nat {:trigger Reach(p, name, steps)} :: Ends(p, name, steps, value)
  }

  ghost predicate Ends(p: Project, name: string, steps: nat, value: Expr)
    requires ValidProject(p)
  {
    var last := Reach(p, name, steps);
    last.Some? && last.value in p.declarations && p.declarations[last.value].value == value && LiteralForm(value)
  }

  /** The chain of references ends in a value that is neither a literal nor a constant. */
  ghost predicate EndsBadly(p: Project, name: string)
    requires ValidProject(p)
  {
    exists steps: nat {:trigger Reach(p, name, steps)} :: Stuck(p, name, steps)
  }

  ghost predicate Stuck(p: Project, name: string, steps: nat)
    requires ValidProject(p)
  {
    var last := Reach(p, name, steps);
    last.Some? && last.value in p.declarations && !LiteralForm(p.declarations[last.value].value)
      && Next(p, last.value).None?
  }

  /** The chain of references comes back to a constant it has visited. */
  ghost predicate Cyclic(p: Project, name: string)
    requires ValidProject(p)
  {
    exists steps: nat, more: nat {:trigger Reach(p, name, steps), Reach(p, name, more)} ::
      steps < more && Reach(p, name, steps).Some? && Reach(p, name, steps) == Reach(p, name, more)
  }

  // ---- A chain ends in exactly one way ----

  lemma {:induction false} ReachAdds(p: Project, name: string, first: nat, second: nat)
    requires ValidProject(p)
    ensures Reach(p, name, first + second)
         == if Reach(p, name, first).Some? then Reach(p, Reach(p, name, first).value, second) else None
    decreases first
  {
    if first > 0 && Next(p, name).Some? {
      ReachAdds(p, Next(p, name).value, first - 1, second);
    }
  }

  /** A chain that stops after `steps` references goes no further. */
  lemma StopsAt(p: Project, name: string, steps: nat, more: nat)
    requires ValidProject(p) && Reach(p, name, steps).Some? && Next(p, Reach(p, name, steps).value).None?
    requires steps < more
    ensures Reach(p, name, more).None?
  {
    ReachAdds(p, name, steps, more - steps);
  }

  /** On a cycle every number of steps reaches something. */
  lemma CycleGoesOn(p: Project, name: string, steps: nat, more: nat, count: nat)
    requires ValidProject(p) && steps < more && Reach(p, name, steps).Some?
    requires Reach(p, name, steps) == Reach(p, name, more)
    ensures Reach(p, name, count).Some?
    decreases count
  {
    if count <= more {
      ReachAdds(p, name, count, more - count);
    } else {
      CycleGoesOn(p, name, steps, more, count - (more - steps));
      ReachAdds(p, name, more, count - more);
      ReachAdds(p, name, steps, count - more);
      assert steps + (count - more) == count - (more - steps);
    }
  }

  /** The three ways a chain can go exclude each other, and a chain ends in one literal only. */
  lemma OneEnd(p: Project, name: string, value: Expr)
    requires ValidProject(p)
    ensures EndsIn(p, name, value) ==> !EndsBadly(p, name) && !Cyclic(p, name)
    ensures EndsBadly(p, name) ==> !Cyclic(p, name)
  {
    if EndsIn(p, name, value) {
      var steps: nat :| Ends(p, name, steps, value);
      forall other: nat | Stuck(p, name, other) ensures false {
        Order(p, name, steps, other);
      }
      NoCycle(p, name, steps);
    }
    if EndsBadly(p, name) {
      var steps: nat :| Stuck(p, name, steps);
      NoCycle(p, name, steps);
    }
  }

  lemma Order(p: Project, name: string, steps: nat, other: nat)
    requires ValidProject(p) && Reach(p, name, steps).Some? && Next(p, Reach(p, name, steps).value).None?
    requires Reach(p, name, other).Some? && Next(p, Reach(p, name, other).value).None?
    ensures steps == other
  {
    if steps < other {
      StopsAt(p, name, steps, other);
    } else if other < steps {
      StopsAt(p, name, other, steps);
    }
  }

  lemma NoCycle(p: Project, name: string, steps: nat)
    requires ValidProject(p) && Reach(p, name, steps).Some? && Next(p, Reach(p, name, steps).value).None?
    ensures !Cyclic(p, name)
  {
    forall low: nat, high: nat | low < high && Reach(p, name, low).Some? && Reach(p, name, low) == Reach(p, name, high)
      ensures false
    {
      CycleGoesOn(p, name, low, high, steps + 1);
      StopsAt(p, name, steps, steps + 1);
    }
  }

  lemma OneValue(p: Project, name: string, left: Expr, right: Expr)
    requires ValidProject(p) && EndsIn(p, name, left) && EndsIn(p, name, right)
    ensures left == right
  {
    var steps: nat :| Ends(p, name, steps, left);
    var other: nat :| Ends(p, name, other, right);
    Order(p, name, steps, other);
  }

  // ---- The resolver ----

  /** Why a constant has no value. */
  ghost predicate FailsWith(p: Project, name: string, error: ResolveError)
    requires ValidProject(p)
  {
    match error
    case Cycle => Cyclic(p, name)
    case NotConstant => EndsBadly(p, name)
    case Undeclared => name !in p.declarations
  }

  class Resolver {
    const project: Project
    /** The ends of the chains followed so far. */
    var values: map<string, Expr>
    /** The constants on the chain being followed: meeting one again closes a cycle. */
    var visiting: set<string>

    ghost predicate Valid()
      reads this
    {
      && ValidProject(project)
      && visiting <= project.declarations.Keys && values.Keys <= project.declarations.Keys
      && forall name :: name in values ==> EndsIn(project, name, values[name])
    }

    constructor (project: Project)
      requires ValidProject(project)
      ensures this.project == project && Valid() && values == map[] && visiting == {}
    {
      this.project := project;
      values := map[];
      visiting := {};
    }

    /**
      * The value of a constant. The constants being visited lead to it, so that meeting one of them again closes a
      * cycle.
      */
    method Value(name: string) returns (r: Result<Expr, ResolveError>)
      requires Valid()
      requires forall visited :: visited in visiting ==> Leads(project, visited, name)
      modifies this
      ensures Valid() && (r.Ok? ==> visiting == old(visiting)) && old(values.Keys) <= values.Keys
      ensures r.Ok? ==> name in values && EndsIn(project, name, r.value)
      ensures r.Err? ==> FailsWith(project, name, r.error)
      decreases |project.declarations.Keys - visiting|, 1
    {
      if name in values {
        return Ok(values[name]);
      }
      if name !in project.declarations {
        return Err(Undeclared);
      }
      if name in visiting {
        LeadsBack(project, name);
        return Err(Cycle);
      }
      visiting := visiting + {name};
      var value := Evaluate(name);
      if value.Err? {
        return value;
      }
      visiting := visiting - {name};
      values := values[name := value.value];
      return value;
    }

    /** The value of the constant's declared expression. */
    method Evaluate(name: string) returns (r: Result<Expr, ResolveError>)
      requires Valid() && name in visiting
      requires forall visited :: visited in visiting && visited != name ==> Leads(project, visited, name)
      modifies this
      ensures Valid() && (r.Ok? ==> visiting == old(visiting)) && old(values.Keys) <= values.Keys
      ensures r.Ok? ==> EndsIn(project, name, r.value)
      ensures r.Err? ==> r.error != Undeclared && FailsWith(project, name, r.error)
      decreases |project.declarations.Keys - visiting|, 2
    {
      var declaration := project.declarations[name];
      assert Reach(project, name, 0) == Some(name);
      if LiteralForm(declaration.value) {
        assert Ends(project, name, 0, declaration.value);
        return Ok(declaration.value);
      }
      var next := Next(project, name);
      if next.None? {
        assert Stuck(project, name, 0);
        return Err(NotConstant);
      }
      OneReference(project, name, next.value);
      forall visited | visited in visiting ensures Leads(project, visited, next.value) {
        if visited != name {
          LeadsOn(project, visited, name, next.value);
        }
      }
      r := Value(next.value);
      if r.Ok? {
        EndsOneLater(project, name, next.value, r.value);
      }
    }
  }

  lemma LeadsBack(p: Project, name: string)
    requires ValidProject(p) && Leads(p, name, name)
    ensures Cyclic(p, name)
  {
    var steps: nat :| steps > 0 && Reach(p, name, steps) == Some(name);
    assert Reach(p, name, 0) == Some(name);
  }

  lemma LeadsOn(p: Project, first: string, last: string, next: string)
    requires ValidProject(p) && Leads(p, first, last) && Next(p, last) == Some(next)
    ensures Leads(p, first, next)
  {
    var steps: nat :| steps > 0 && Reach(p, first, steps) == Some(last);
    ReachAdds(p, first, steps, 1);
    assert Reach(p, last, 1) == Reach(p, next, 0);
    assert Reach(p, first, steps + 1) == Some(next);
  }

  /** A chain is one reference longer than the chain of the constant it names. */
  lemma OneReference(p: Project, name: string, next: string)
    requires ValidProject(p) && Next(p, name) == Some(next)
    ensures Leads(p, name, next)
    ensures EndsBadly(p, next) ==> EndsBadly(p, name)
    ensures Cyclic(p, next) ==> Cyclic(p, name)
  {
    assert Reach(p, name, 1) == Reach(p, next, 0) == Some(next);
    if EndsBadly(p, next) {
      var steps: nat :| Stuck(p, next, steps);
      assert Reach(p, name, steps + 1) == Reach(p, next, steps);
      assert Stuck(p, name, steps + 1);
    }
    if Cyclic(p, next) {
      var steps: nat, more: nat :| steps < more && Reach(p, next, steps).Some?
        && Reach(p, next, steps) == Reach(p, next, more);
      assert Reach(p, name, steps + 1) == Reach(p, next, steps) && Reach(p, name, more + 1) == Reach(p, next, more);
    }
  }

  lemma EndsOneLater(p: Project, name: string, next: string, value: Expr)
    requires ValidProject(p) && Next(p, name) == Some(next) && EndsIn(p, next, value)
    ensures EndsIn(p, name, value)
  {
    var steps: nat :| Ends(p, next, steps, value);
    assert Reach(p, name, steps + 1) == Reach(p, next, steps);
    assert Ends(p, name, steps + 1, value);
  }

  /**
    * Resolves every constant, in the given order of their names, or stops at the first that has no value. Resolving
    * all of them gives each the value its chain ends in, and no other.
    */
  method Resolve(project: Project, names: seq<string>) returns (r: Result<map<string, Expr>, ResolveError>)
    requires ValidProject(project)
    requires forall name :: name in project.declarations <==> name in names
    ensures r.Ok? <==> forall i :: 0 <= i < |names| ==> HasValue(project, names[i])
    ensures r.Ok? ==> Resolves(project, r.value)
    ensures r.Err? ==> FirstFailure(project, names, r.error)
  {
    var resolver := new Resolver(project);
    var i := 0;
    while i < |names|
      invariant i <= |names| && resolver.Valid() && resolver.visiting == {}
      invariant forall j :: 0 <= j < i ==> names[j] in resolver.values && HasValue(project, names[j])
    {
      var value := resolver.Value(names[i]);
      if value.Err? {
        NoValue(project, names[i], value.error);
        return Err(value.error);
      }
      i := i + 1;
    }
    assert resolver.values.Keys == project.declarations.Keys by {
      forall name | name in project.declarations ensures name in resolver.values {
        var j :| 0 <= j < |names| && names[j] == name;
      }
    }
    EndsOnce(project, resolver.values);
    r := Ok(resolver.values);
  }

  /** Each constant has the value its chain ends in, and that is the only one. */
  ghost predicate Resolves(p: Project, values: map<string, Expr>)
    requires ValidProject(p)
  {
    && values.Keys == p.declarations.Keys
    && forall name {:trigger values[name]} :: name in values ==>
         forall value :: EndsIn(p, name, value) <==> value == values[name]
  }

  ghost predicate HasValue(p: Project, name: string)
    requires ValidProject(p)
  {
    exists value :: EndsIn(p, name, value)
  }

  /** Some name fails with the error, and all before it have values. */
  ghost predicate FirstFailure(p: Project, names: seq<string>, error: ResolveError)
    requires ValidProject(p)
  {
    exists i :: 0 <= i < |names| && FailsWith(p, names[i], error) && forall j :: 0 <= j < i ==> HasValue(p, names[j])
  }

  lemma EndsOnce(p: Project, values: map<string, Expr>)
    requires ValidProject(p) && values.Keys == p.declarations.Keys
    requires forall name :: name in values ==> EndsIn(p, name, values[name])
    ensures Resolves(p, values)
  {
    forall name, value | name in values && EndsIn(p, name, value) ensures value == values[name] {
      OneValue(p, name, value, values[name]);
    }
  }

  lemma NoValue(p: Project, name: string, error: ResolveError)
    requires ValidProject(p) && FailsWith(p, name, error)
    ensures !HasValue(p, name)
  {
    if value :| EndsIn(p, name, value) {
      OneEnd(p, name, value);
      var steps: nat :| Ends(p, name, steps, value);
      if error == Undeclared {
        Leaves(p, name, steps);
      }
    }
  }

  lemma Leaves(p: Project, name: string, steps: nat)
    requires ValidProject(p) && Reach(p, name, steps).Some? && Reach(p, name, steps).value in p.declarations
    ensures name in p.declarations
  {}

  ghost predicate Before(p: Project, first: string, steps: nat, name: string)
    requires ValidProject(p)
  {
    exists count: nat :: count < steps && Reach(p, first, count) == Some(name)
  }

  /** A chain of references ends in a literal, ends badly or closes a cycle. */
  lemma {:induction false} SomeEnd(p: Project, first: string, steps: nat, last: string, visited: set<string>)
    requires ValidProject(p) && first in p.declarations && Reach(p, first, steps) == Some(last)
    requires last in p.declarations
    requires visited <= p.declarations.Keys
    requires forall name :: name in visited ==> Before(p, first, steps, name)
    ensures (exists value :: EndsIn(p, first, value)) || EndsBadly(p, first) || Cyclic(p, first)
    decreases p.declarations.Keys - visited
  {
    var value := p.declarations[last].value;
    if last in visited {
      var count: nat :| count < steps && Reach(p, first, count) == Some(last);
      assert Cyclic(p, first);
    } else if LiteralForm(value) {
      assert Ends(p, first, steps, value);
      assert EndsIn(p, first, value);
    } else if Next(p, last).None? {
      assert Stuck(p, first, steps);
    } else {
      var next := Next(p, last).value;
      ReachAdds(p, first, steps, 1);
      assert Reach(p, last, 1) == Reach(p, next, 0);
      forall name | name in visited + {last}
        ensures Before(p, first, steps + 1, name)
      {
        if name in visited {
          var count: nat :| count < steps && Reach(p, first, count) == Some(name);
          assert count < steps + 1;
        }
      }
      assert last !in visited && last in p.declarations.Keys;
      SomeEnd(p, first, steps + 1, next, visited + {last});
    }
  }

  /** A constant has a value exactly when its chain of references neither closes a cycle nor ends badly. */
  lemma ResolvesWhen(p: Project, name: string)
    requires ValidProject(p) && name in p.declarations
    ensures HasValue(p, name) <==> !Cyclic(p, name) && !EndsBadly(p, name)
  {
    assert Reach(p, name, 0) == Some(name);
    SomeEnd(p, name, 0, name, {});
    if value :| EndsIn(p, name, value) {
      OneEnd(p, name, value);
    }
  }

  /** At least one reference leads from one constant to the other. */
  ghost predicate Leads(p: Project, first: string, last: string)
    requires ValidProject(p)
  {
    exists steps: nat :: steps > 0 && Reach(p, first, steps) == Some(last)
  }
}
