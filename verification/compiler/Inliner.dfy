/** The constant inliner of one module, which does what `Substitution` says. */
module ConstantInlining {
  import opened Syntax
  import opened Substitution
  import opened Occurrences
  import opened Misuses
  import opened Wrappers

  class Inliner {
    const constants: Constants
    /** The names each scope around the current place binds; `Locals()` is their union. */
    var scopes: seq<set<string>>
    var diagnostics: seq<Diagnostic>

    constructor (constants: Constants)
      ensures this.constants == constants && scopes == [] && diagnostics == []
    {
      this.constants := constants;
      scopes := [];
      diagnostics := [];
    }

    ghost function Locals(): set<string>
      reads this`scopes
    {
      Union(scopes)
    }

    method IsLocal(name: string) returns (local: bool)
      ensures local <==> name in Locals()
    {
      var i := 0;
      while i < |scopes|
        invariant i <= |scopes| && name !in Union(scopes[..i])
      {
        UnionPush(scopes[..i], scopes[i]);
        assert scopes[..i + 1] == scopes[..i] + [scopes[i]];
        if name in scopes[i] {
          UnionGrows(scopes, i + 1);
          return true;
        }
        i := i + 1;
      }
      assert scopes[..i] == scopes;
      return false;
    }

    method Push(names: set<string>)
      modifies this`scopes
      ensures scopes == old(scopes) + [names] && Locals() == old(Locals()) + names
    {
      UnionPush(scopes, names);
      scopes := scopes + [names];
    }

    /** From here on the last scope hides the name. */
    method Bind(name: string)
      requires scopes != []
      modifies this`scopes
      ensures scopes == old(scopes[..|scopes| - 1] + [scopes[|scopes| - 1] + {name}])
      ensures Locals() == old(Locals()) + {name}
    {
      var last := |scopes| - 1;
      assert scopes == scopes[..last] + [scopes[last]];
      UnionPush(scopes[..last], scopes[last]);
      UnionPush(scopes[..last], scopes[last] + {name});
      scopes := scopes[..last] + [scopes[last] + {name}];
    }

    method Pop()
      requires scopes != []
      modifies this`scopes
      ensures scopes == old(scopes[..|scopes| - 1])
    {
      scopes := scopes[..|scopes| - 1];
    }

    /** Walks one function body with its parameters in scope. */
    method Function(parameters: List<string>, body: List<Stmt>) returns (inlined: List<Stmt>)
      modifies this
      ensures scopes == old(scopes)
      ensures inlined == InlineBlock(constants, old(Locals()) + NameSet(parameters), body)
      ensures diagnostics == old(diagnostics) + ReportBlock(constants, old(Locals()) + NameSet(parameters), body)
      decreases body, 2
    {
      Push(NameSet(parameters));
      inlined := Block(body);
      Pop();
    }

    /** Inlines a block; what it binds ends with it. */
    method Block(block: List<Stmt>) returns (inlined: List<Stmt>)
      modifies this
      ensures scopes == old(scopes)
      ensures inlined == InlineBlock(constants, old(Locals()), block)
      ensures diagnostics == old(diagnostics) + ReportBlock(constants, old(Locals()), block)
      decreases block, 1
    {
      Push({});
      assert Locals() == old(Locals());
      inlined := Statements(block);
      Pop();
    }

    /** Inlines statements one after the other; what they bind stays in the last scope. */
    method Statements(block: List<Stmt>) returns (inlined: List<Stmt>)
      requires scopes != []
      modifies this
      ensures |scopes| == |old(scopes)| && scopes[..|scopes| - 1] == old(scopes[..|scopes| - 1])
      ensures inlined == InlineBlock(constants, old(Locals()), block)
      ensures diagnostics == old(diagnostics) + ReportBlock(constants, old(Locals()), block)
      decreases block, 0
    {
      hide Union, InlineStmt, ReportStmt;
      if block.Nil? {
        return Nil;
      }
      var head := Statement(block.head);
      var tail := Statements(block.tail);
      inlined := Cons(head, tail);
    }

    method Statement(s: Stmt) returns (inlined: Stmt)
      requires scopes != []
      modifies this
      ensures |scopes| == |old(scopes)| && scopes[..|scopes| - 1] == old(scopes[..|scopes| - 1])
      ensures !s.Let? ==> scopes == old(scopes)
      ensures Locals() == old(Locals()) + Declared(s)
      ensures inlined == InlineStmt(constants, old(Locals()), s)
      ensures diagnostics == old(diagnostics) + ReportStmt(constants, old(Locals()), s)
      decreases s, 1
    {
      hide Union, InlineExpr, InlineBlock, InlineElse, ReportExpr, ReportBlock, ReportElse;
      match s {
        case Let(name, value) =>
          var inner := Expression(value);
          Bind(name);
          inlined := Let(name, inner);
        case Assign(_, _) =>
          inlined := Assignment(s);
        case Return(None) =>
          inlined := s;
        case Return(Some(value)) =>
          var inner := Expression(value);
          inlined := Return(Some(inner));
        case Block(block) =>
          var inner := Block(block);
          inlined := Stmt.Block(inner);
        case If(condition, thenBlock, orElse) =>
          var inner := Expression(condition);
          var first := Block(thenBlock);
          var second := ElseBranch(orElse);
          inlined := If(inner, first, second);
        case While(condition, body) =>
          var inner := Expression(condition);
          var round := Block(body);
          inlined := While(inner, round);
        case For(binding, iterable, body) =>
          var inner := Expression(iterable);
          Push({binding});
          var round := Block(body);
          Pop();
          inlined := For(binding, inner, round);
        case Break => inlined := s;
        case Continue => inlined := s;
        case Do(expression) =>
          var inner := Expression(expression);
          inlined := Do(inner);
      }
    }

    method Assignment(s: Stmt) returns (inlined: Stmt)
      requires s.Assign?
      modifies this
      ensures scopes == old(scopes)
      ensures inlined == InlineStmt(constants, old(Locals()), s)
      ensures diagnostics == old(diagnostics) + ReportStmt(constants, old(Locals()), s)
      decreases s, 0
    {
      hide Union, InlineExpr, ReportExpr;
      match s.target {
        case Name(name) =>
          var local := IsLocal(name);
          if !local && name in constants.visible {
            diagnostics := diagnostics + [AssignedConstant(name)];
          }
          var inner := Expression(s.value);
          inlined := Assign(s.target, inner);
        case Element(receiver, index) =>
          var first := Expression(receiver);
          var second := Expression(index);
          var inner := Expression(s.value);
          inlined := Assign(Element(first, second), inner);
      }
    }

    method ElseBranch(orElse: Else) returns (inlined: Else)
      modifies this
      ensures scopes == old(scopes)
      ensures inlined == InlineElse(constants, old(Locals()), orElse)
      ensures diagnostics == old(diagnostics) + ReportElse(constants, old(Locals()), orElse)
      decreases orElse, 0
    {
      hide Union, InlineExpr, InlineBlock, ReportExpr, ReportBlock;
      match orElse {
        case NoElse => inlined := NoElse;
        case ElseBlock(block) =>
          var inner := Block(block);
          inlined := ElseBlock(inner);
        case ElseIf(condition, thenBlock, rest) =>
          var inner := Expression(condition);
          var first := Block(thenBlock);
          var second := ElseBranch(rest);
          inlined := ElseIf(inner, first, second);
      }
    }

    /** Inlines an expression under the current locals and adds its reports. */
    method Expression(e: Expr) returns (inlined: Expr)
      modifies this
      ensures scopes == old(scopes)
      ensures inlined == InlineExpr(constants, old(Locals()), e)
      ensures diagnostics == old(diagnostics) + ReportExpr(constants, old(Locals()), e)
      decreases e, 0
    {
      hide Union, InlineBlock, InlineAll, InlineArms, ReportBlock, ReportAll, ReportArms;
      match e {
        case Constant(_) => inlined := e;
        case Variable(name) =>
          inlined := e;
          var local := IsLocal(name);
          if !local {
            if name in constants.visible {
              inlined := constants.visible[name];
            } else if name in constants.hidden {
              diagnostics := diagnostics + [PrivateConstant(name)];
            }
          }
        case Unary(operator, operand) =>
          var inner := Expression(operand);
          inlined := Unary(operator, inner);
        case Binary(operator, left, right) =>
          var first := Expression(left);
          var second := Expression(right);
          inlined := Binary(operator, first, second);
        case Index(receiver, index) =>
          var first := Expression(receiver);
          var second := Expression(index);
          inlined := Index(first, second);
        case Make(tag, elements) =>
          var inner := Expressions(elements);
          inlined := Make(tag, inner);
        case Call(callee, arguments) =>
          var inner := Expressions(arguments);
          inlined := Call(callee, inner);
        case Closure(parameters, body) =>
          var inner := Function(parameters, body);
          inlined := Closure(parameters, inner);
        case Match(value, arms) =>
          var inner := Expression(value);
          var rest := Arms(arms);
          inlined := Match(inner, rest);
      }
    }

    method Expressions(es: List<Expr>) returns (inlined: List<Expr>)
      modifies this
      ensures scopes == old(scopes)
      ensures inlined == InlineAll(constants, old(Locals()), es)
      ensures diagnostics == old(diagnostics) + ReportAll(constants, old(Locals()), es)
      decreases es, 0
    {
      if es.Nil? {
        return Nil;
      }
      var head := Expression(es.head);
      var tail := Expressions(es.tail);
      inlined := Cons(head, tail);
    }

    method Arms(arms: List<Arm>) returns (inlined: List<Arm>)
      modifies this
      ensures scopes == old(scopes)
      ensures inlined == InlineArms(constants, old(Locals()), arms)
      ensures diagnostics == old(diagnostics) + ReportArms(constants, old(Locals()), arms)
      decreases arms, 0
    {
      hide Union, InlineExpr, InlineBlock, ReportExpr, ReportBlock;
      if arms.Nil? {
        return Nil;
      }
      var head := arms.head;
      Push(NameSet(Bindings(head.pattern)));
      var body;
      match head.body {
        case Value(value) =>
          var inner := Expression(value);
          body := Value(inner);
        case Body(block) =>
          var inner := Block(block);
          body := Body(inner);
      }
      Pop();
      var tail := Arms(arms.tail);
      inlined := Cons(Arm(head.pattern, body), tail);
    }
  }

  datatype Declaration = Declaration(name: string, parameters: List<string>, body: List<Stmt>)

  function InlineDeclaration(c: Constants, f: Declaration): Declaration {
    Declaration(f.name, f.parameters, InlineBlock(c, NameSet(f.parameters), f.body))
  }

  function ReportDeclarations(c: Constants, functions: seq<Declaration>): seq<Diagnostic> {
    if functions == [] then []
    else
      var last := functions[|functions| - 1];
      ReportDeclarations(c, functions[..|functions| - 1]) + ReportBlock(c, NameSet(last.parameters), last.body)
  }

  /** The free uses in the functions of a module, in source order. */
  function FreeUses(functions: seq<Declaration>): seq<Token> {
    if functions == [] then []
    else
      var last := functions[|functions| - 1];
      FreeUses(functions[..|functions| - 1]) + FreeInFunction(last.parameters, last.body)
  }

  lemma {:induction false} DeclarationsReport(c: Constants, functions: seq<Declaration>)
    ensures ReportDeclarations(c, functions) == MisusesOf(c, FreeUses(functions))
  {
    if functions != [] {
      var last := functions[|functions| - 1];
      DeclarationsReport(c, functions[..|functions| - 1]);
      ReportsAreMisuses(c, last.parameters, last.body);
      MisusesAppend(c, FreeUses(functions[..|functions| - 1]), FreeInFunction(last.parameters, last.body));
    }
  }

  /** Substitutes the constants into every function of a module, or reports why it cannot. */
  method InlineModule(c: Constants, functions: seq<Declaration>) returns (r: Result<seq<Declaration>, seq<Diagnostic>>)
    ensures r.Ok? <==> MisusesOf(c, FreeUses(functions)) == []
    ensures r.Ok? ==> |r.value| == |functions|
    ensures r.Ok? ==> forall i :: 0 <= i < |functions| ==> r.value[i] == InlineDeclaration(c, functions[i])
    ensures r.Err? ==> r.error == MisusesOf(c, FreeUses(functions))
  {
    hide MisusesOf, FreeUses, InlineBlock, ReportBlock, NameSet;
    DeclarationsReport(c, functions);
    if c.visible == map[] && c.hidden == {} {
      NothingToInline(c, functions);
      return Ok(functions);
    }
    var inliner := new Inliner(c);
    var done: seq<Declaration> := [];
    var i := 0;
    while i < |functions|
      invariant i <= |functions| && |done| == i && inliner.scopes == []
      invariant forall j :: 0 <= j < i ==> done[j] == InlineDeclaration(c, functions[j])
      invariant inliner.diagnostics == ReportDeclarations(c, functions[..i])
    {
      var body := inliner.Function(functions[i].parameters, functions[i].body);
      assert {} + NameSet(functions[i].parameters) == NameSet(functions[i].parameters);
      assert functions[..i + 1][..i] == functions[..i];
      done := done + [Declaration(functions[i].name, functions[i].parameters, body)];
      i := i + 1;
    }
    assert functions[..i] == functions;
    r := if inliner.diagnostics == [] then Ok(done) else Err(inliner.diagnostics);
  }

  // ---- A module without constants ----

  lemma {:induction false} NothingToInline(c: Constants, functions: seq<Declaration>)
    requires c.visible == map[] && c.hidden == {}
    ensures ReportDeclarations(c, functions) == []
    ensures forall i :: 0 <= i < |functions| ==> InlineDeclaration(c, functions[i]) == functions[i]
  {
    if functions != [] {
      var last := functions[|functions| - 1];
      NothingToInline(c, functions[..|functions| - 1]);
      SameBlock(c, NameSet(last.parameters), last.body);
    }
  }

  lemma {:induction false} SameExpr(c: Constants, locals: set<string>, e: Expr)
    requires c.visible == map[] && c.hidden == {}
    ensures InlineExpr(c, locals, e) == e && ReportExpr(c, locals, e) == []
    decreases e
  {
    match e {
      case Constant(_) =>
      case Variable(_) =>
      case Unary(_, operand) => SameExpr(c, locals, operand);
      case Binary(_, left, right) => SameExpr(c, locals, left); SameExpr(c, locals, right);
      case Index(receiver, index) => SameExpr(c, locals, receiver); SameExpr(c, locals, index);
      case Make(_, elements) => SameAll(c, locals, elements);
      case Call(_, arguments) => SameAll(c, locals, arguments);
      case Closure(parameters, body) => SameBlock(c, locals + NameSet(parameters), body);
      case Match(value, arms) => SameExpr(c, locals, value); SameArms(c, locals, arms);
    }
  }

  lemma {:induction false} SameAll(c: Constants, locals: set<string>, es: List<Expr>)
    requires c.visible == map[] && c.hidden == {}
    ensures InlineAll(c, locals, es) == es && ReportAll(c, locals, es) == []
    decreases es
  {
    if es.Cons? {
      SameExpr(c, locals, es.head);
      SameAll(c, locals, es.tail);
    }
  }

  lemma {:induction false} SameArms(c: Constants, locals: set<string>, arms: List<Arm>)
    requires c.visible == map[] && c.hidden == {}
    ensures InlineArms(c, locals, arms) == arms && ReportArms(c, locals, arms) == []
    decreases arms
  {
    if arms.Cons? {
      var inner := locals + NameSet(Bindings(arms.head.pattern));
      match arms.head.body {
        case Value(value) => SameExpr(c, inner, value);
        case Body(block) => SameBlock(c, inner, block);
      }
      SameArms(c, locals, arms.tail);
    }
  }

  lemma {:induction false} SameBlock(c: Constants, locals: set<string>, block: List<Stmt>)
    requires c.visible == map[] && c.hidden == {}
    ensures InlineBlock(c, locals, block) == block && ReportBlock(c, locals, block) == []
    decreases block
  {
    if block.Cons? {
      SameStmt(c, locals, block.head);
      SameBlock(c, locals + Declared(block.head), block.tail);
    }
  }

  lemma {:induction false} SameStmt(c: Constants, locals: set<string>, s: Stmt)
    requires c.visible == map[] && c.hidden == {}
    ensures InlineStmt(c, locals, s) == s && ReportStmt(c, locals, s) == []
    decreases s
  {
    match s {
      case Let(_, value) => SameExpr(c, locals, value);
      case Assign(Name(_), value) => SameExpr(c, locals, value);
      case Assign(Element(receiver, index), value) =>
        SameExpr(c, locals, receiver);
        SameExpr(c, locals, index);
        SameExpr(c, locals, value);
      case Return(None) =>
      case Return(Some(value)) => SameExpr(c, locals, value);
      case Block(block) => SameBlock(c, locals, block);
      case If(condition, thenBlock, orElse) =>
        SameExpr(c, locals, condition);
        SameBlock(c, locals, thenBlock);
        SameElse(c, locals, orElse);
      case While(condition, body) => SameExpr(c, locals, condition); SameBlock(c, locals, body);
      case For(binding, iterable, body) => SameExpr(c, locals, iterable); SameBlock(c, locals + {binding}, body);
      case Break =>
      case Continue =>
      case Do(expression) => SameExpr(c, locals, expression);
    }
  }

  lemma {:induction false} SameElse(c: Constants, locals: set<string>, orElse: Else)
    requires c.visible == map[] && c.hidden == {}
    ensures InlineElse(c, locals, orElse) == orElse && ReportElse(c, locals, orElse) == []
    decreases orElse
  {
    match orElse {
      case NoElse =>
      case ElseBlock(block) => SameBlock(c, locals, block);
      case ElseIf(condition, thenBlock, rest) =>
        SameExpr(c, locals, condition);
        SameBlock(c, locals, thenBlock);
        SameElse(c, locals, rest);
    }
  }
}
