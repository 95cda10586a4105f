/** The names in a piece of source text, one after the other, and which of them are bound outside it. */
module Occurrences {
  import opened Syntax

  /** A name that is read, called, assigned or bound, or the beginning or the end of a scope. */
  datatype Token =
    | Read(name: string)
    | Called(name: string)
    | Assigned(name: string)
    | Bind(name: string)
    | Enter
    | Leave

  function Binds(names: List<string>): seq<Token> {
    if names.Nil? then [] else [Bind(names.head)] + Binds(names.tail)
  }

  // ---- The tokens of source text, from left to right ----

  function Source(e: Expr): seq<Token>
    decreases e
  {
    match e
    case Constant(_) => []
    case Variable(name) => [Read(name)]
    case Unary(_, operand) => Source(operand)
    case Binary(_, left, right) => Source(left) + Source(right)
    case Index(receiver, index) => Source(receiver) + Source(index)
    case Make(_, elements) => SourceOfAll(elements)
    case Call(callee, arguments) => [Called(callee)] + SourceOfAll(arguments)
    case Closure(parameters, body) => SourceOfFunction(parameters, body)
    case Match(value, arms) => Source(value) + SourceOfArms(arms)
  }

  function SourceOfAll(es: List<Expr>): seq<Token>
    decreases es
  {
    if es.Nil? then [] else Source(es.head) + SourceOfAll(es.tail)
  }

  function SourceOfFunction(parameters: List<string>, body: List<Stmt>): seq<Token>
    decreases body, 1
  {
    [Enter] + Binds(parameters) + SourceOfBlock(body) + [Leave]
  }

  function SourceOfArms(arms: List<Arm>): seq<Token>
    decreases arms
  {
    if arms.Nil? then []
    else
      ([Enter] + Binds(Bindings(arms.head.pattern)) + SourceOfArmBody(arms.head.body) + [Leave])
      + SourceOfArms(arms.tail)
  }

  function SourceOfArmBody(body: ArmBody): seq<Token>
    decreases body
  {
    match body
    case Value(value) => Source(value)
    case Body(block) => SourceOfBlock(block)
  }

  function SourceOfBlock(block: List<Stmt>): seq<Token>
    decreases block, 0
  {
    if block.Nil? then [] else SourceOfStmt(block.head) + SourceOfBlock(block.tail)
  }

  function SourceOfStmt(s: Stmt): seq<Token>
    decreases s
  {
    match s
    case Let(name, value) => Source(value) + [Bind(name)]
    case Assign(Name(name), value) => [Assigned(name)] + Source(value)
    case Assign(Element(receiver, index), value) => Source(receiver) + Source(index) + Source(value)
    case Return(result) => if result.Some? then Source(result.value) else []
    case Block(block) => [Enter] + SourceOfBlock(block) + [Leave]
    case If(condition, thenBlock, orElse) =>
      Source(condition) + ([Enter] + SourceOfBlock(thenBlock) + [Leave]) + SourceOfElse(orElse)
    case While(condition, body) => Source(condition) + ([Enter] + SourceOfBlock(body) + [Leave])
    case For(binding, iterable, body) =>
      Source(iterable) + ([Enter] + [Bind(binding)] + SourceOfBlock(body) + [Leave])
    case Break => []
    case Continue => []
    case Do(expression) => Source(expression)
  }

  function SourceOfElse(orElse: Else): seq<Token>
    decreases orElse
  {
    match orElse
    case NoElse => []
    case ElseBlock(block) => [Enter] + SourceOfBlock(block) + [Leave]
    case ElseIf(condition, thenBlock, rest) =>
      Source(condition) + ([Enter] + SourceOfBlock(thenBlock) + [Leave]) + SourceOfElse(rest)
  }

  // ---- Scopes along the text ----

  function Union(scopes: seq<set<string>>): set<string> {
    if scopes == [] then {} else Union(scopes[..|scopes| - 1]) + scopes[|scopes| - 1]
  }

  lemma UnionPush(scopes: seq<set<string>>, names: set<string>)
    ensures Union(scopes + [names]) == Union(scopes) + names
  {
    assert (scopes + [names])[..|scopes|] == scopes;
  }

  lemma {:induction false} UnionGrows(scopes: seq<set<string>>, count: nat)
    requires count <= |scopes|
    ensures Union(scopes[..count]) <= Union(scopes)
    decreases |scopes| - count
  {
    if count < |scopes| {
      UnionPush(scopes[..count], scopes[count]);
      assert scopes[..count + 1] == scopes[..count] + [scopes[count]];
      UnionGrows(scopes, count + 1);
    } else {
      assert scopes[..count] == scopes;
    }
  }

  /** The innermost scope has these names as well. */
  function Added(scopes: seq<set<string>>, names: set<string>): seq<set<string>> {
    if scopes == [] then [names] else scopes[..|scopes| - 1] + [scopes[|scopes| - 1] + names]
  }

  function Popped(scopes: seq<set<string>>): seq<set<string>> {
    if scopes == [] then [] else scopes[..|scopes| - 1]
  }

  /** The uses of names that no scope around them binds, in source order. */
  function Free(tokens: seq<Token>, scopes: seq<set<string>>): seq<Token> {
    if tokens == [] then []
    else
      match tokens[0]
      case Enter => Free(tokens[1..], scopes + [{}])
      case Leave => Free(tokens[1..], Popped(scopes))
      case Bind(name) => Free(tokens[1..], Added(scopes, {name}))
      case use => (if use.name in Union(scopes) then [] else [use]) + Free(tokens[1..], scopes)
  }
}
