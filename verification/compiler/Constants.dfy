/** The constants pass over a whole project: every constant is resolved and then substituted in every module. */
module ConstantPass {
  import opened Syntax
  import opened Evaluator
  import opened Substitution
  import opened Misuses
  import opened Rewriting
  import opened ConstantInlining
  import opened ConstantMeaning
  import opened ConstantResolution
  import opened Wrappers

  datatype PassError = Unresolved(error: ResolveError) | Misused(diagnostics: seq<Diagnostic>)

  /** A project's constants, the functions of each module and the names private to other libraries in each. */
  datatype Sources = Sources(project: Project, modules: seq<seq<Declaration>>, hidden: seq<set<string>>)

  ghost predicate ValidSources(s: Sources) {
    ValidProject(s.project) && |s.modules| == |s.hidden| == |s.project.bindings|
  }

  /** The constants a module may use, by the names it spells. */
  function Visible(p: Project, values: map<string, Expr>, home: nat): map<string, Expr>
    requires home < |p.bindings|
  {
    map name | name in p.bindings[home] && p.bindings[home][name] in values :: values[p.bindings[home][name]]
  }

  ghost function AllConstants(s: Sources, values: map<string, Expr>): seq<Constants>
    requires ValidSources(s)
  {
    seq(|s.modules|, home requires 0 <= home < |s.modules| =>
      Constants(Visible(s.project, values, home), s.hidden[home]))
  }

  /** The module has nothing to report, and every function of it is rewritten. */
  ghost predicate InlinedModule(c: Constants, before: seq<Declaration>, after: seq<Declaration>) {
    && MisusesOf(c, FreeUses(before)) == []
    && |after| == |before|
    && forall i :: 0 <= i < |before| ==> after[i] == InlineDeclaration(c, before[i])
  }

  ghost predicate InlinedModules(s: Sources, values: map<string, Expr>, after: seq<seq<Declaration>>, count: nat)
    requires ValidSources(s)
  {
    && count <= |s.modules| && |after| == count
    && forall home :: 0 <= home < count ==>
         InlinedModule(AllConstants(s, values)[home], s.modules[home], after[home])
  }

  /** The diagnostics are those of the first module that has any. */
  ghost predicate FirstMisuse(s: Sources, values: map<string, Expr>, diagnostics: seq<Diagnostic>)
    requires ValidSources(s)
  {
    exists home ::
      && 0 <= home < |s.modules|
      && diagnostics == MisusesOf(AllConstants(s, values)[home], FreeUses(s.modules[home])) != []
      && forall j :: 0 <= j < home ==> MisusesOf(AllConstants(s, values)[j], FreeUses(s.modules[j])) == []
  }

  lemma NoneDone(s: Sources, values: map<string, Expr>)
    requires ValidSources(s)
    ensures InlinedModules(s, values, [], 0)
  {}

  lemma ModuleDone(s: Sources, values: map<string, Expr>, done: seq<seq<Declaration>>, home: nat,
                   more: seq<Declaration>)
    requires ValidSources(s) && InlinedModules(s, values, done, home) && home < |s.modules|
    requires InlinedModule(Constants(Visible(s.project, values, home), s.hidden[home]), s.modules[home], more)
    ensures InlinedModules(s, values, done + [more], home + 1)
  {
    hide InlinedModule, Visible;
  }

  lemma MisusedFirst(s: Sources, values: map<string, Expr>, done: seq<seq<Declaration>>, home: nat,
                     diagnostics: seq<Diagnostic>)
    requires ValidSources(s) && InlinedModules(s, values, done, home) && home < |s.modules|
    requires var c := Constants(Visible(s.project, values, home), s.hidden[home]);
      diagnostics == MisusesOf(c, FreeUses(s.modules[home])) != []
    ensures FirstMisuse(s, values, diagnostics)
  {
    hide MisusesOf, FreeUses, Visible;
    assert diagnostics == MisusesOf(AllConstants(s, values)[home], FreeUses(s.modules[home]));
    forall j | 0 <= j < home ensures MisusesOf(AllConstants(s, values)[j], FreeUses(s.modules[j])) == [] {
      assert InlinedModule(AllConstants(s, values)[j], s.modules[j], done[j]);
    }
  }

  /** Resolves the constants, in the given order of their names, and substitutes them module by module. */
  method InlineProject(s: Sources, names: seq<string>)
    returns (r: Result<seq<seq<Declaration>>, PassError>, ghost values: map<string, Expr>)
    requires ValidSources(s)
    requires forall name :: name in s.project.declarations <==> name in names
    ensures r.Ok? ==> Resolves(s.project, values) && InlinedModules(s, values, r.value, |s.modules|)
    ensures r.Err? && r.error.Unresolved? ==> FirstFailure(s.project, names, r.error.error)
    ensures r.Err? && r.error.Misused? ==> Resolves(s.project, values) && FirstMisuse(s, values, r.error.diagnostics)
  {
    hide InlinedModules, FirstMisuse, FirstFailure, Resolves, Visible, MisusesOf, FreeUses;
    values := map[];
    var resolved := Resolve(s.project, names);
    if resolved.Err? {
      return Err(Unresolved(resolved.error)), values;
    }
    values := resolved.value;
    var done: seq<seq<Declaration>> := [];
    var home := 0;
    NoneDone(s, values);
    while home < |s.modules|
      invariant home <= |s.modules| && InlinedModules(s, values, done, home)
    {
      var c := Constants(Visible(s.project, resolved.value, home), s.hidden[home]);
      var module' := InlineModule(c, s.modules[home]);
      if module'.Err? {
        MisusedFirst(s, values, done, home, module'.error);
        return Err(Misused(module'.error)), values;
      }
      ModuleDone(s, values, done, home, module'.value);
      done := done + [module'.value];
      home := home + 1;
    }
    r := Ok(done);
  }

  // ---- The program a project is ----

  /** The functions of all modules by canonical name. */
  ghost function Link(modules: seq<seq<Declaration>>, canonical: (nat, string) -> string): map<string, Function> {
    if modules == [] then map[]
    else
      var home := |modules| - 1;
      Link(modules[..home], canonical) + LinkModule(home, modules[home], canonical)
  }

  ghost function LinkModule(home: nat, functions: seq<Declaration>, canonical: (nat, string) -> string)
    : map<string, Function>
  {
    if functions == [] then map[]
    else
      var last := functions[|functions| - 1];
      LinkModule(home, functions[..|functions| - 1], canonical)
        [canonical(home, last.name) := Function(home, last.parameters, last.body)]
  }

  ghost function Linked(p: Project, modules: seq<seq<Declaration>>, canonical: (nat, string) -> string,
                        constants: map<string, nat>, operators: Operators): Program
  {
    Program(Link(modules, canonical), p.bindings, constants, operators, false)
  }

  /** Every constant's location holds what its declared expression evaluates to in its module. */
  ghost predicate ConstantsHold(p: Project, program: Program, store: Store)
    requires ValidProject(p)
  {
    && program.bindings == p.bindings && program.constants.Keys == p.declarations.Keys
    && forall name {:trigger program.constants[name]} :: name in p.declarations ==>
         DeclarationHolds(p, program, store, name)
  }

  ghost predicate DeclarationHolds(p: Project, program: Program, store: Store, name: string)
    requires ValidProject(p) && program.constants.Keys == p.declarations.Keys && name in p.declarations
  {
    && program.constants[name] < |store|
    && var declaration := p.declarations[name];
    && Eval(program, declaration.owner, 0, declaration.value, Globals(program, declaration.owner), store)
      == Done(store[program.constants[name]], store)
  }

  /** Negating a number literal gives a literal. */
  ghost predicate NegatesNumbers(operators: Operators) {
    forall literal: Literal {:trigger Datum(literal)} :: literal.Integer? || literal.Float? ==>
      var answer := operators.unary("-", Datum(literal));
      answer.response.Gives? && !answer.leaves
  }

  lemma LiteralFormIsLiteral(program: Program, e: Expr, home: nat, env: Env, store: Store)
    requires NegatesNumbers(program.operators) && LiteralForm(e)
    ensures LiteralOf(program, e).Some?
    ensures Eval(program, home, 0, e, env, store) == Done(Data(LiteralOf(program, e).value), store)
  {
    if e.Unary? {
      assert Datum(e.operand.literal).Datum?;
      assert Eval(program, home, 0, e.operand, env, store) == Done(Data(e.operand.literal), store);
      hide Eval;
    }
  }

  lemma ReferenceHolds(p: Project, program: Program, store: Store, name: string, next: string)
    requires ValidProject(p) && ConstantsHold(p, program, store) && name in p.declarations
    requires Next(p, name) == Some(next)
    ensures program.constants[name] < |store| && program.constants[next] < |store|
    ensures store[program.constants[name]] == store[program.constants[next]]
  {
    var declaration := p.declarations[name];
    assert program.constants[name] < |store| && program.constants[next] < |store|;
    assert Canonical(program, declaration.owner, declaration.value.name) == Some(next);
    assert declaration.value.name in Globals(program, declaration.owner);
  }

  /** Following references and evaluating agree: a location holds the literal its constant's chain ends in. */
  lemma {:induction false} ChainHolds(p: Project, program: Program, store: Store, name: string, steps: nat, value: Expr)
    requires ValidProject(p) && ConstantsHold(p, program, store) && NegatesNumbers(program.operators)
    requires name in p.declarations && Ends(p, name, steps, value)
    ensures program.constants[name] < |store| && LiteralOf(program, value).Some?
    ensures store[program.constants[name]] == Data(LiteralOf(program, value).value)
    decreases steps
  {
    hide Eval, LiteralOf, LiteralForm, Globals, NegatesNumbers;
    if steps == 0 {
      var owner := p.declarations[name].owner;
      assert program.constants[name] < |store|;
      LiteralFormIsLiteral(program, value, owner, Globals(program, owner), store);
    } else {
      var next := Next(p, name).value;
      assert Ends(p, next, steps - 1, value);
      ChainHolds(p, program, store, next, steps - 1, value);
      hide ConstantsHold;
      ReferenceHolds(p, program, store, name, next);
    }
  }

  /** Every constant's location holds the literal it resolves to. */
  ghost predicate ValuesHold(p: Project, program: Program, values: map<string, Expr>, store: Store)
    requires values.Keys == p.declarations.Keys == program.constants.Keys
  {
    forall name {:trigger program.constants[name]} :: name in values ==>
      && program.constants[name] < |store|
      && LiteralOf(program, values[name]).Some?
      && store[program.constants[name]] == Data(LiteralOf(program, values[name]).value)
  }

  /** Resolving constants and evaluating their declarations agree. */
  lemma ResolvingIsEvaluating(p: Project, program: Program, values: map<string, Expr>, store: Store)
    requires ValidProject(p) && Resolves(p, values) && NegatesNumbers(program.operators)
    requires program.bindings == p.bindings && program.constants.Keys == p.declarations.Keys
    ensures ConstantsHold(p, program, store) <==> ValuesHold(p, program, values, store)
  {
    hide LiteralOf, Eval, Globals, NegatesNumbers, Ends;
    if ConstantsHold(p, program, store) {
      forall name | name in values
        ensures program.constants[name] < |store| && LiteralOf(program, values[name]).Some?
        ensures store[program.constants[name]] == Data(LiteralOf(program, values[name]).value)
      {
        assert EndsIn(p, name, values[name]);
        var steps: nat :| Ends(p, name, steps, values[name]);
        ChainHolds(p, program, store, name, steps, values[name]);
      }
    }
    if ValuesHold(p, program, values, store) {
      forall name | name in p.declarations
        ensures DeclarationHolds(p, program, store, name)
      {
        DeclarationEvaluates(p, program, values, store, name);
      }
      assert ConstantsHold(p, program, store);
    }
  }

  lemma DeclarationEvaluates(p: Project, program: Program, values: map<string, Expr>, store: Store, name: string)
    requires ValidProject(p) && Resolves(p, values) && NegatesNumbers(program.operators)
    requires program.bindings == p.bindings && program.constants.Keys == p.declarations.Keys
    requires ValuesHold(p, program, values, store) && name in p.declarations
    ensures DeclarationHolds(p, program, store, name)
  {
    hide LiteralOf, LiteralForm, NegatesNumbers, Ends, Reach;
    var declaration := p.declarations[name];
    assert program.constants[name] < |store|;
    FirstStep(p, name, values[name]);
    if Next(p, name).Some? {
      var next := Next(p, name).value;
      assert values[next] == values[name] by {
        assert EndsIn(p, next, values[name]);
      }
      assert program.constants[next] < |store|;
      assert Canonical(program, declaration.owner, declaration.value.name) == Some(next);
      assert declaration.value.name in Globals(program, declaration.owner);
    } else {
      LiteralFormIsLiteral(program, values[name], declaration.owner, Globals(program, declaration.owner), store);
    }
  }

  /** A constant is declared as its value, or as a reference to a constant of that value. */
  lemma FirstStep(p: Project, name: string, value: Expr)
    requires ValidProject(p) && name in p.declarations && EndsIn(p, name, value)
    ensures Next(p, name).Some? ==> EndsIn(p, Next(p, name).value, value)
    ensures Next(p, name).None? ==> p.declarations[name].value == value && LiteralForm(value)
  {
    var steps: nat :| Ends(p, name, steps, value);
    FirstOf(p, name, steps, value);
  }

  lemma FirstOf(p: Project, name: string, steps: nat, value: Expr)
    requires ValidProject(p) && name in p.declarations && Ends(p, name, steps, value)
    ensures Next(p, name).Some? ==> steps > 0 && Ends(p, Next(p, name).value, steps - 1, value)
    ensures Next(p, name).None? ==> p.declarations[name].value == value && LiteralForm(value)
  {
    if steps > 0 {
      assert Next(p, name).Some?;
    }
  }

  // ---- Rewriting a module and linking it ----

  lemma {:induction false} ReportsNone(c: Constants, functions: seq<Declaration>, i: nat)
    requires ReportDeclarations(c, functions) == [] && i < |functions|
    ensures ReportBlock(c, NameSet(functions[i].parameters), functions[i].body) == []
    decreases |functions|
  {
    var last := |functions| - 1;
    if i < last {
      ReportsNone(c, functions[..last], i);
      assert functions[..last][i] == functions[i];
    }
  }

  /** What a linked function is: rewritten as its module's functions are, from one that reports nothing. */
  ghost predicate LinksInlined(c: seq<Constants>, before: map<string, Function>, after: map<string, Function>) {
    && after.Keys == before.Keys
    && forall name {:trigger before[name]} :: name in before ==>
         var f := before[name];
         && after[name] == InlineFunction(c, f)
         && ReportBlock(ConstantsOf(c, f.home), NameSet(f.parameters), f.body) == []
  }

  lemma {:induction false} ModuleLinks(c: seq<Constants>, home: nat, before: seq<Declaration>, after: seq<Declaration>,
                                       canonical: (nat, string) -> string, count: nat)
    requires home < |c| && InlinedModule(c[home], before, after) && count <= |before|
    ensures LinksInlined(c, LinkModule(home, before[..count], canonical), LinkModule(home, after[..count], canonical))
    decreases count
  {
    hide InlineBlock, ReportBlock, MisusesOf, FreeUses;
    if count > 0 {
      ModuleLinks(c, home, before, after, canonical, count - 1);
      DeclarationsReport(c[home], before);
      ReportsNone(c[home], before, count - 1);
      assert before[..count][..count - 1] == before[..count - 1];
      assert after[..count][..count - 1] == after[..count - 1];
      assert after[count - 1] == InlineDeclaration(c[home], before[count - 1]);
    }
  }

  lemma {:induction false} ProjectLinks(s: Sources, values: map<string, Expr>, after: seq<seq<Declaration>>,
                                        canonical: (nat, string) -> string, count: nat)
    requires ValidSources(s) && InlinedModules(s, values, after, |s.modules|) && count <= |s.modules|
    ensures LinksInlined(AllConstants(s, values), Link(s.modules[..count], canonical), Link(after[..count], canonical))
    decreases count
  {
    hide InlineBlock, ReportBlock, InlinedModule, LinkModule;
    if count > 0 {
      hide LinksInlined;
      var home := count - 1;
      ProjectLinks(s, values, after, canonical, home);
      OneLinks(s, values, after, canonical, home);
      LinkLast(s.modules, canonical, count);
      LinkLast(after, canonical, count);
      hide Link, AllConstants;
      JoinLinks(AllConstants(s, values), Link(s.modules[..home], canonical), Link(after[..home], canonical),
        LinkModule(home, s.modules[home], canonical), LinkModule(home, after[home], canonical));
    }
  }

  lemma OneLinks(s: Sources, values: map<string, Expr>, after: seq<seq<Declaration>>,
                 canonical: (nat, string) -> string, home: nat)
    requires ValidSources(s) && InlinedModules(s, values, after, |s.modules|) && home < |s.modules|
    ensures LinksInlined(AllConstants(s, values), LinkModule(home, s.modules[home], canonical),
                         LinkModule(home, after[home], canonical))
  {
    hide InlineBlock, ReportBlock, LinksInlined, LinkModule, InlinedModule;
    var c := AllConstants(s, values);
    InlinedLength(c[home], s.modules[home], after[home]);
    ModuleLinks(c, home, s.modules[home], after[home], canonical, |s.modules[home]|);
    assert s.modules[home][..|s.modules[home]|] == s.modules[home];
    assert after[home][..|s.modules[home]|] == after[home];
  }

  lemma LinkLast(modules: seq<seq<Declaration>>, canonical: (nat, string) -> string, count: nat)
    requires 0 < count <= |modules|
    ensures Link(modules[..count], canonical)
         == Link(modules[..count - 1], canonical) + LinkModule(count - 1, modules[count - 1], canonical)
  {
    assert modules[..count][..count - 1] == modules[..count - 1];
  }

  lemma JoinLinks(c: seq<Constants>, before: map<string, Function>, after: map<string, Function>,
                  moreBefore: map<string, Function>, moreAfter: map<string, Function>)
    requires LinksInlined(c, before, after) && LinksInlined(c, moreBefore, moreAfter)
    ensures LinksInlined(c, before + moreBefore, after + moreAfter)
  {
    hide InlineFunction, ReportBlock;
  }

  lemma InlinedLength(c: Constants, before: seq<Declaration>, after: seq<Declaration>)
    requires InlinedModule(c, before, after)
    ensures |after| == |before|
  {}

  // ---- The whole pass ----

  /**
    * Where a run may start: data, with each constant in a location of its own name, which no function has, and
    * negation as the compiler folds it.
    */
  ghost predicate StartsWith(s: Sources, program: Program, store: Store)
    requires ValidSources(s)
  {
    && ConstantsHold(s.project, program, store) && NegatesNumbers(program.operators)
    && (forall name {:trigger program.constants[name]} :: name in program.constants ==> name !in program.functions)
    && (forall i {:trigger store[i]} :: 0 <= i < |store| ==> Plain(store[i]))
  }

  lemma PassStarts(s: Sources, values: map<string, Expr>, after: seq<seq<Declaration>>,
                   canonical: (nat, string) -> string, constants: map<string, nat>, operators: Operators, store: Store)
    requires ValidSources(s) && Resolves(s.project, values) && InlinedModules(s, values, after, |s.modules|)
    requires StartsWith(s, Linked(s.project, s.modules, canonical, constants, operators), store)
    ensures var program := Linked(s.project, s.modules, canonical, constants, operators);
      var w := Setting(program, AllConstants(s, values), |store|);
      && Starting(w, store)
      && Inlined(w) == Linked(s.project, after, canonical, map[], operators)
  {
    var program := Linked(s.project, s.modules, canonical, constants, operators);
    var w := Setting(program, AllConstants(s, values), |store|);
    LinksAlike(s, values, after, canonical);
    StartParts(s, program, store);
    hide StartsWith, InlinedModules, Covered, CellsHold, Plain, Link, Globals, LinksInlined, Accepted, Inlined;
    assert forall home: nat {:trigger CellsHold(w, home, store)} {:trigger Covered(w, home)} ::
        Covered(w, home) && CellsHold(w, home, store) by {
      forall home: nat ensures Covered(w, home) && CellsHold(w, home, store) {
        ModuleStarts(s, values, program, store, home);
      }
    }
    hide AllConstants, Resolves;
    PassAccepts(w, Link(after, canonical));
    RewritesAll(w, Link(after, canonical));
  }

  lemma PassAccepts(w: Setting, after: map<string, Function>)
    requires !w.p.lifted && LinksInlined(w.c, w.p.functions, after)
    requires forall home: nat :: Covered(w, home)
    requires forall name {:trigger w.p.constants[name]} :: name in w.p.constants ==>
               w.p.constants[name] < w.cells && name !in w.p.functions
    ensures Accepted(w)
  {
    hide Covered, InlineFunction, ReportBlock;
  }

  lemma RewritesAll(w: Setting, after: map<string, Function>)
    requires LinksInlined(w.c, w.p.functions, after)
    ensures Inlined(w) == w.p.(functions := after, constants := map[])
  {
    hide InlineFunction, ReportBlock;
    assert Inlined(w).functions == after;
  }

  lemma LinksAlike(s: Sources, values: map<string, Expr>, after: seq<seq<Declaration>>,
                   canonical: (nat, string) -> string)
    requires ValidSources(s) && InlinedModules(s, values, after, |s.modules|)
    ensures LinksInlined(AllConstants(s, values), Link(s.modules, canonical), Link(after, canonical))
  {
    ProjectLinks(s, values, after, canonical, |s.modules|);
    AfterLength(s, values, after);
    assert s.modules[..|s.modules|] == s.modules && after[..|s.modules|] == after;
  }

  lemma StartParts(s: Sources, program: Program, store: Store)
    requires ValidSources(s) && StartsWith(s, program, store)
    ensures forall name {:trigger program.constants[name]} :: name in program.constants ==>
              program.constants[name] < |store| && name !in program.functions
    ensures forall i {:trigger store[i]} :: 0 <= i < |store| ==> Plain(store[i])
  {
    hide Plain, Eval;
  }

  lemma AfterLength(s: Sources, values: map<string, Expr>, after: seq<seq<Declaration>>)
    requires ValidSources(s) && InlinedModules(s, values, after, |s.modules|)
    ensures |after| == |s.modules|
  {}

  /** The constants a module may use are literals, and their locations hold them. */
  /** What a module may name are the constants in its scope. */
  lemma VisibleIs(s: Sources, values: map<string, Expr>, home: nat)
    requires ValidSources(s)
    ensures ConstantsOf(AllConstants(s, values), home).visible
         == if home < |s.project.bindings| then Visible(s.project, values, home) else map[]
  {}

  lemma ScopeStarts(w: Setting, p: Project, values: map<string, Expr>, home: nat, store: Store)
    requires values.Keys == p.declarations.Keys == w.p.constants.Keys && ValuesHold(p, w.p, values, store)
    requires w.p.bindings == p.bindings && w.cells == |store|
    requires At(w, home).visible == if home < |p.bindings| then Visible(p, values, home) else map[]
    ensures Covered(w, home) && CellsHold(w, home, store)
  {
    hide LiteralOf, At;
    forall name | name in At(w, home).visible
      ensures name in p.bindings[home] && p.bindings[home][name] in values
      ensures At(w, home).visible[name] == values[p.bindings[home][name]]
      ensures Globals(w.p, home)[name] == w.p.constants[p.bindings[home][name]]
    {}
  }

  lemma ModuleStarts(s: Sources, values: map<string, Expr>, program: Program, store: Store, home: nat)
    requires ValidSources(s) && Resolves(s.project, values) && StartsWith(s, program, store)
    ensures var w := Setting(program, AllConstants(s, values), |store|); Covered(w, home) && CellsHold(w, home, store)
  {
    ResolvingIsEvaluating(s.project, program, values, store);
    VisibleIs(s, values, home);
    ScopeStarts(Setting(program, AllConstants(s, values), |store|), s.project, values, home, store);
    hide Covered, CellsHold, Visible, AllConstants, ValuesHold, Plain;
  }

  /**
    * A project that resolves and inlines without diagnostics does the same before and after: each run of a function on
    * data ends alike and returns the same data, whatever names its modules give to whatever constants.
    */
  lemma PassKeepsResults(s: Sources, values: map<string, Expr>, after: seq<seq<Declaration>>,
                         canonical: (nat, string) -> string, constants: map<string, nat>, operators: Operators,
                         fuel: nat, name: string, arguments: List<Value>, store: Store)
    requires ValidSources(s) && Resolves(s.project, values) && InlinedModules(s, values, after, |s.modules|)
    requires StartsWith(s, Linked(s.project, s.modules, canonical, constants, operators), store) && PlainAll(arguments)
    ensures var original := Linked(s.project, s.modules, canonical, constants, operators);
      var compiled := Linked(s.project, after, canonical, map[], operators);
      var first, second := Run(original, fuel, name, arguments, store), Run(compiled, fuel, name, arguments, store);
      && second == RewriteOutcome(Inlining(AllConstants(s, values), |store|), first)
      && (first.Done? <==> second.Done?)
      && (first.Done? && Plain(first.value) ==> second.value == first.value)
  {
    PassStarts(s, values, after, canonical, constants, operators, store);
    var program := Linked(s.project, s.modules, canonical, constants, operators);
    var w := Setting(program, AllConstants(s, values), |store|);
    hide Starting, Run, RewriteOutcome, Linked, AllConstants, StartsWith, Resolves, InlinedModules;
    SameResults(w, fuel, name, arguments, store);
  }
}
