/** The syntax the compiler passes walk: scopes, bindings and the expressions between them. */
module Syntax {
  import opened Wrappers

  datatype List<T> = Nil | Cons(head: T, tail: List<T>)

  function Length<T>(list: List<T>): nat {
    if list.Nil? then 0 else 1 + Length(list.tail)
  }

  datatype Literal =
    | NoneLiteral
    | UnitLiteral
    | Bool(flag: bool)
    | Integer(number: int)
    | Float(bits: nat)
    | Text(text: string)
    | Bytes(bytes: string)

  /**
    * Expressions, by how a pass walks them. `Unary` stands for every form with one operand, `Binary` for every form
    * with two, and `Make` for the forms that hold a list of elements: Lists, Objects and formatted strings.
    */
  datatype Expr =
    | Constant(literal: Literal)
    | Variable(name: string)
    | Unary(operator: string, operand: Expr)
    | Binary(operator: string, left: Expr, right: Expr)
    | Index(receiver: Expr, index: Expr)
    | Make(tag: string, elements: List<Expr>)
    | Call(callee: string, arguments: List<Expr>)
    | Closure(parameters: List<string>, body: List<Stmt>)
    | Match(value: Expr, arms: List<Arm>)

  datatype Pattern = LiteralPattern(literal: Literal) | Variant(tag: string, bindings: List<string>) | Wildcard

  datatype Arm = Arm(pattern: Pattern, body: ArmBody)

  datatype ArmBody = Value(value: Expr) | Body(block: List<Stmt>)

  datatype Target = Name(name: string) | Element(receiver: Expr, index: Expr)

  datatype Else = NoElse | ElseBlock(block: List<Stmt>) | ElseIf(condition: Expr, thenBlock: List<Stmt>, orElse: Else)

  datatype Stmt =
    | Let(name: string, value: Expr)
    | Assign(target: Target, value: Expr)
    | Return(result: Option<Expr>)
    | Block(block: List<Stmt>)
    | If(condition: Expr, thenBlock: List<Stmt>, orElse: Else)
    | While(condition: Expr, body: List<Stmt>)
    | For(binding: string, iterable: Expr, body: List<Stmt>)
    | Break
    | Continue
    | Do(expression: Expr)

  function NameSet(names: List<string>): set<string> {
    if names.Nil? then {} else {names.head} + NameSet(names.tail)
  }

  function Bindings(pattern: Pattern): List<string> {
    if pattern.Variant? then pattern.bindings else Nil
  }
}
