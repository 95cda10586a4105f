/** What the constant inliner makes of a body, and what it reports. */
module Substitution {
  import opened Syntax
  import opened Wrappers

  datatype Diagnostic =
    | AssignedConstant(name: string)    // E0120
    | PrivateConstant(name: string)     // E0118

  /** The names a module may use as constants, with their values, and the constants private to other libraries. */
  datatype Constants = Constants(visible: map<string, Expr>, hidden: set<string>)

  function InlineExpr(c: Constants, locals: set<string>, e: Expr): Expr
    decreases e
  {
    match e
    case Constant(_) => e
    case Variable(name) => if name !in locals && name in c.visible then c.visible[name] else e
    case Unary(operator, operand) => Unary(operator, InlineExpr(c, locals, operand))
    case Binary(operator, left, right) => Binary(operator, InlineExpr(c, locals, left), InlineExpr(c, locals, right))
    case Index(receiver, index) => Index(InlineExpr(c, locals, receiver), InlineExpr(c, locals, index))
    case Make(tag, elements) => Make(tag, InlineAll(c, locals, elements))
    case Call(callee, arguments) => Call(callee, InlineAll(c, locals, arguments))
    case Closure(parameters, body) => Closure(parameters, InlineBlock(c, locals + NameSet(parameters), body))
    case Match(value, arms) => Match(InlineExpr(c, locals, value), InlineArms(c, locals, arms))
  }

  function InlineAll(c: Constants, locals: set<string>, es: List<Expr>): List<Expr>
    decreases es
  {
    if es.Nil? then Nil else Cons(InlineExpr(c, locals, es.head), InlineAll(c, locals, es.tail))
  }

  function InlineArms(c: Constants, locals: set<string>, arms: List<Arm>): List<Arm>
    decreases arms
  {
    if arms.Nil? then Nil
    else
      var inner := locals + NameSet(Bindings(arms.head.pattern));
      Cons(Arm(arms.head.pattern, InlineArmBody(c, inner, arms.head.body)), InlineArms(c, locals, arms.tail))
  }

  function InlineArmBody(c: Constants, locals: set<string>, body: ArmBody): ArmBody
    decreases body
  {
    match body
    case Value(value) => Value(InlineExpr(c, locals, value))
    case Body(block) => Body(InlineBlock(c, locals, block))
  }

  function InlineBlock(c: Constants, locals: set<string>, block: List<Stmt>): List<Stmt>
    decreases block
  {
    if block.Nil? then Nil
    else Cons(InlineStmt(c, locals, block.head), InlineBlock(c, locals + Declared(block.head), block.tail))
  }

  /** The name a statement binds for the statements after it. */
  function Declared(s: Stmt): set<string> {
    if s.Let? then {s.name} else {}
  }

  function InlineStmt(c: Constants, locals: set<string>, s: Stmt): Stmt
    decreases s
  {
    match s
    case Let(name, value) => Let(name, InlineExpr(c, locals, value))
    case Assign(Name(name), value) => Assign(Name(name), InlineExpr(c, locals, value))
    case Assign(Element(receiver, index), value) =>
      Assign(Element(InlineExpr(c, locals, receiver), InlineExpr(c, locals, index)), InlineExpr(c, locals, value))
    case Return(result) => Return(if result.Some? then Some(InlineExpr(c, locals, result.value)) else None)
    case Block(block) => Block(InlineBlock(c, locals, block))
    case If(condition, thenBlock, orElse) =>
      If(InlineExpr(c, locals, condition), InlineBlock(c, locals, thenBlock), InlineElse(c, locals, orElse))
    case While(condition, body) => While(InlineExpr(c, locals, condition), InlineBlock(c, locals, body))
    case For(binding, iterable, body) =>
      For(binding, InlineExpr(c, locals, iterable), InlineBlock(c, locals + {binding}, body))
    case Break => s
    case Continue => s
    case Do(expression) => Do(InlineExpr(c, locals, expression))
  }

  function InlineElse(c: Constants, locals: set<string>, orElse: Else): Else
    decreases orElse
  {
    match orElse
    case NoElse => NoElse
    case ElseBlock(block) => ElseBlock(InlineBlock(c, locals, block))
    case ElseIf(condition, thenBlock, rest) =>
      ElseIf(InlineExpr(c, locals, condition), InlineBlock(c, locals, thenBlock), InlineElse(c, locals, rest))
  }

  // ---- Reports ----

  function ReportExpr(c: Constants, locals: set<string>, e: Expr): seq<Diagnostic>
    decreases e
  {
    match e
    case Constant(_) => []
    case Variable(name) =>
      if name !in locals && name !in c.visible && name in c.hidden then [PrivateConstant(name)] else []
    case Unary(_, operand) => ReportExpr(c, locals, operand)
    case Binary(_, left, right) => ReportExpr(c, locals, left) + ReportExpr(c, locals, right)
    case Index(receiver, index) => ReportExpr(c, locals, receiver) + ReportExpr(c, locals, index)
    case Make(_, elements) => ReportAll(c, locals, elements)
    case Call(_, arguments) => ReportAll(c, locals, arguments)
    case Closure(parameters, body) => ReportBlock(c, locals + NameSet(parameters), body)
    case Match(value, arms) => ReportExpr(c, locals, value) + ReportArms(c, locals, arms)
  }

  function ReportAll(c: Constants, locals: set<string>, es: List<Expr>): seq<Diagnostic>
    decreases es
  {
    if es.Nil? then [] else ReportExpr(c, locals, es.head) + ReportAll(c, locals, es.tail)
  }

  function ReportArms(c: Constants, locals: set<string>, arms: List<Arm>): seq<Diagnostic>
    decreases arms
  {
    if arms.Nil? then []
    else
      ReportArmBody(c, locals + NameSet(Bindings(arms.head.pattern)), arms.head.body) + ReportArms(c, locals, arms.tail)
  }

  function ReportArmBody(c: Constants, locals: set<string>, body: ArmBody): seq<Diagnostic>
    decreases body
  {
    match body
    case Value(value) => ReportExpr(c, locals, value)
    case Body(block) => ReportBlock(c, locals, block)
  }

  function ReportBlock(c: Constants, locals: set<string>, block: List<Stmt>): seq<Diagnostic>
    decreases block
  {
    if block.Nil? then []
    else ReportStmt(c, locals, block.head) + ReportBlock(c, locals + Declared(block.head), block.tail)
  }

  function ReportStmt(c: Constants, locals: set<string>, s: Stmt): seq<Diagnostic>
    decreases s
  {
    match s
    case Let(_, value) => ReportExpr(c, locals, value)
    case Assign(Name(name), value) =>
      (if name !in locals && name in c.visible then [AssignedConstant(name)] else []) + ReportExpr(c, locals, value)
    case Assign(Element(receiver, index), value) =>
      ReportExpr(c, locals, receiver) + ReportExpr(c, locals, index) + ReportExpr(c, locals, value)
    case Return(result) => if result.Some? then ReportExpr(c, locals, result.value) else []
    case Block(block) => ReportBlock(c, locals, block)
    case If(condition, thenBlock, orElse) =>
      ReportExpr(c, locals, condition) + ReportBlock(c, locals, thenBlock) + ReportElse(c, locals, orElse)
    case While(condition, body) => ReportExpr(c, locals, condition) + ReportBlock(c, locals, body)
    case For(binding, iterable, body) => ReportExpr(c, locals, iterable) + ReportBlock(c, locals + {binding}, body)
    case Break => []
    case Continue => []
    case Do(expression) => ReportExpr(c, locals, expression)
  }

  function ReportElse(c: Constants, locals: set<string>, orElse: Else): seq<Diagnostic>
    decreases orElse
  {
    match orElse
    case NoElse => []
    case ElseBlock(block) => ReportBlock(c, locals, block)
    case ElseIf(condition, thenBlock, rest) =>
      ReportExpr(c, locals, condition) + ReportBlock(c, locals, thenBlock) + ReportElse(c, locals, rest)
  }
}
