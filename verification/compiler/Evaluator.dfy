/**
  * What a program means: every binding is a location in a store, closures share the locations of the bindings around
  * them, and `fuel` bounds the calls and loop rounds.
  */
module Evaluator {
  import opened Syntax
  import opened Wrappers

  type Env = map<string, nat>

  /** A closure: the module of its code, the code and the bindings around it. */
  datatype Code = Code(home: nat, parameters: List<string>, body: List<Stmt>, env: Env)

  datatype Value =
    | Data(literal: Literal)
    | Reference(location: nat)
    | Tuple(tag: string, items: List<Value>)
    | Callable(code: Code)

  type Store = seq<Value>

  datatype Outcome =
    | Done(value: Value, store: Store)
    | Returned(value: Value, store: Store)
    | Broken(store: Store)
    | Continued(store: Store)
    | Failed
    | Timeout

  /** A function and the module it belongs to. */
  datatype Function = Function(home: nat, parameters: List<string>, body: List<Stmt>)

  /** What an operator sees of a value: code and other references are alike to it. */
  datatype Seen = Datum(literal: Literal) | Composite(tag: string) | Other

  datatype Response =
    | Gives(literal: Literal)
    | Passes                  // the operand itself
    | Raises(kind: string)    // a new Error
    | Stops

  /** What an operator answers: a response, and whether the function returns it at once. */
  datatype Answer = Answer(response: Response, leaves: bool)

  /**
    * What operators do. `settle` is the answer the left operand alone gives, as for `&&` and `||`; `unary` also covers
    * `?`, which may leave the function, and type tests.
    */
  datatype Operators = Operators(
    unary: (string, Seen) -> Answer,
    settle: (string, Seen) -> Option<Answer>,
    binary: (string, Seen, Seen) -> Answer)

  /**
    * The functions of a project by canonical name, the canonical names of the names each module may use, and the
    * locations of its constants. `lifted` says whether a new closure keeps the bindings its code uses or all bindings
    * around it.
    */
  datatype Program = Program(functions: map<string, Function>, bindings: seq<map<string, string>>,
                             constants: map<string, nat>, operators: Operators, lifted: bool)

  const UNIT: Value := Data(UnitLiteral)

  // ---- Steps that evaluate nothing ----

  ghost function Read(location: nat, store: Store): Outcome {
    if location < |store| then Done(store[location], store) else Failed
  }

  ghost function Write(location: nat, value: Value, store: Store): Outcome {
    if location < |store| then Done(UNIT, store[location := value]) else Failed
  }

  /** The Tuple behind a reference. */
  ghost function Behind(value: Value, store: Store): (behind: Option<Value>)
    ensures behind.Some? ==> value.Reference? && behind.value.Tuple?
  {
    if value.Reference? && value.location < |store| && store[value.location].Tuple? then Some(store[value.location])
      else None
  }

  ghost function See(value: Value, store: Store): Seen {
    if value.Data? then Datum(value.literal)
    else
      var behind := Behind(value, store);
      if behind.Some? then Composite(behind.value.tag) else Other
  }

  /** What an answer makes of the operand it is about. */
  ghost function Respond(answer: Answer, operand: Value, store: Store): Outcome {
    match answer.response
    case Gives(literal) => Leave(answer.leaves, Data(literal), store)
    case Passes => Leave(answer.leaves, operand, store)
    case Raises(kind) => Leave(answer.leaves, Reference(|store|), store + [Tuple(kind, Nil)])
    case Stops => Failed
  }

  ghost function Leave(leaves: bool, value: Value, store: Store): Outcome {
    if leaves then Returned(value, store) else Done(value, store)
  }

  ghost function OperateUnary(p: Program, operator: string, operand: Value, store: Store): Outcome {
    Respond(p.operators.unary(operator, See(operand, store)), operand, store)
  }

  ghost function Settle(p: Program, operator: string, left: Value, store: Store): Option<Outcome> {
    var answer := p.operators.settle(operator, See(left, store));
    if answer.Some? then Some(Respond(answer.value, left, store)) else None
  }

  ghost function OperateBinary(p: Program, operator: string, left: Value, right: Value, store: Store): Outcome {
    Respond(p.operators.binary(operator, See(left, store), See(right, store)), right, store)
  }

  /** A condition that is no Bool leaves the function with an Error. */
  ghost function NoCondition(store: Store): Outcome {
    Respond(Answer(Raises("TypeError"), true), UNIT, store)
  }

  ghost function ItemAt(items: List<Value>, index: nat): Option<Value> {
    if items.Nil? then None else if index == 0 then Some(items.head) else ItemAt(items.tail, index - 1)
  }

  ghost function WithItem(items: List<Value>, index: nat, item: Value): List<Value> {
    if items.Nil? then Nil
    else if index == 0 then Cons(item, items.tail)
    else Cons(items.head, WithItem(items.tail, index - 1, item))
  }

  ghost function Position(index: Value): Option<nat> {
    if index.Data? && index.literal.Integer? && index.literal.number >= 0 then Some(index.literal.number) else None
  }

  ghost function Lookup(receiver: Value, index: Value, store: Store): Outcome {
    var behind, position := Behind(receiver, store), Position(index);
    if behind.None? || position.None? then Failed
    else
      var item := ItemAt(behind.value.items, position.value);
      if item.Some? then Done(item.value, store) else Failed
  }

  ghost function Update(receiver: Value, index: Value, value: Value, store: Store): Outcome {
    var behind, position := Behind(receiver, store), Position(index);
    if behind.None? || position.None? || ItemAt(behind.value.items, position.value).None? then Failed
    else
      Write(receiver.location, Tuple(behind.value.tag, WithItem(behind.value.items, position.value, value)), store)
  }

  /** A new Tuple, behind a reference. */
  ghost function Allocate(tag: string, items: Value, store: Store): Outcome {
    if items.Tuple? then Done(Reference(|store|), store + [Tuple(tag, items.items)]) else Failed
  }

  /** New bindings for `names`, from the values that go with them. */
  ghost function BindEnv(names: List<string>, env: Env, next: nat): Env {
    if names.Nil? then env else BindEnv(names.tail, env[names.head := next], next + 1)
  }

  ghost function BindStore(values: List<Value>, store: Store): Store {
    if values.Nil? then store else BindStore(values.tail, store + [values.head])
  }

  ghost function Canonical(p: Program, home: nat, name: string): Option<string> {
    if home < |p.bindings| && name in p.bindings[home] then Some(p.bindings[home][name]) else None
  }

  /** The bindings every function of a module starts from: the constants it may use. */
  ghost function Globals(p: Program, home: nat): (globals: Env)
    ensures forall name {:trigger name in globals} :: name in globals <==>
              Canonical(p, home, name).Some? && Canonical(p, home, name).value in p.constants
    ensures forall name {:trigger globals[name]} :: name in globals ==>
              globals[name] == p.constants[Canonical(p, home, name).value]
  {
    if home < |p.bindings| then
      map name | name in p.bindings[home] && p.bindings[home][name] in p.constants ::
        p.constants[p.bindings[home][name]]
    else map[]
  }

  /** What a call runs: a binding in scope is called as a closure, any other name as a function. */
  ghost function Called(p: Program, home: nat, callee: string, env: Env, store: Store): Option<Code> {
    if callee in env then
      if env[callee] < |store| && store[env[callee]].Callable? then Some(store[env[callee]].code) else None
    else
      var name := Canonical(p, home, callee);
      if name.Some? && name.value in p.functions then
        var f := p.functions[name.value];
        Some(Code(f.home, f.parameters, f.body, Globals(p, f.home)))
      else None
  }

  /** The names an arm binds to the payload, when its pattern matches. */
  ghost function Matched(pattern: Pattern, value: Value, store: Store): Option<List<Value>> {
    match pattern
    case Wildcard => Some(Nil)
    case LiteralPattern(literal) => if value == Data(literal) then Some(Nil) else None
    case Variant(tag, bindings) =>
      var behind := Behind(value, store);
      if behind.Some? && behind.value.tag == tag && Length(behind.value.items) == Length(bindings) then
        Some(behind.value.items)
      else None
  }

  /** What a call makes of how the body ended. */
  ghost function FromCall(outcome: Outcome): Outcome {
    match outcome
    case Done(_, store) => Done(UNIT, store)
    case Returned(value, store) => Done(value, store)
    case Broken(_) => Failed
    case Continued(_) => Failed
    case Failed => Failed
    case Timeout => Timeout
  }

  /** Whether a loop goes on after a round, with the store the round left. */
  ghost function NextRound(outcome: Outcome): Option<Store> {
    match outcome
    case Done(_, store) => Some(store)
    case Continued(store) => Some(store)
    case _ => None
  }

  /** What a loop makes of a round it does not go on after. */
  ghost function FromLoop(outcome: Outcome): Outcome {
    match outcome
    case Broken(store) => Done(UNIT, store)
    case _ => outcome
  }

  // ---- Names in source order ----

  function Without(names: seq<string>, bound: set<string>): seq<string> {
    if names == [] then []
    else (if names[0] in bound then [] else [names[0]]) + Without(names[1..], bound)
  }

  /** The names an expression uses and does not bind itself, in source order: callees count, when they are bound. */
  function UsesOf(e: Expr): seq<string>
    decreases e
  {
    match e
    case Constant(_) => []
    case Variable(name) => [name]
    case Unary(_, operand) => UsesOf(operand)
    case Binary(_, left, right) => UsesOf(left) + UsesOf(right)
    case Index(receiver, index) => UsesOf(receiver) + UsesOf(index)
    case Make(_, elements) => UsesOfAll(elements)
    case Call(callee, arguments) => [callee] + UsesOfAll(arguments)
    case Closure(parameters, body) => Without(UsesOfBlock(body), NameSet(parameters))
    case Match(value, arms) => UsesOf(value) + UsesOfArms(arms)
  }

  function UsesOfAll(es: List<Expr>): seq<string>
    decreases es
  {
    if es.Nil? then [] else UsesOf(es.head) + UsesOfAll(es.tail)
  }

  function UsesOfArms(arms: List<Arm>): seq<string>
    decreases arms
  {
    if arms.Nil? then []
    else Without(UsesOfArmBody(arms.head.body), NameSet(Bindings(arms.head.pattern))) + UsesOfArms(arms.tail)
  }

  function UsesOfArmBody(body: ArmBody): seq<string>
    decreases body
  {
    match body
    case Value(value) => UsesOf(value)
    case Body(block) => UsesOfBlock(block)
  }

  function UsesOfBlock(block: List<Stmt>): seq<string>
    decreases block
  {
    if block.Nil? then []
    else if block.head.Let? then UsesOf(block.head.value) + Without(UsesOfBlock(block.tail), {block.head.name})
    else UsesOfStmt(block.head) + UsesOfBlock(block.tail)
  }

  function UsesOfStmt(s: Stmt): seq<string>
    decreases s
  {
    match s
    case Let(_, value) => UsesOf(value)
    case Assign(Name(name), value) => [name] + UsesOf(value)
    case Assign(Element(receiver, index), value) => UsesOf(receiver) + UsesOf(index) + UsesOf(value)
    case Return(value) => if value.Some? then UsesOf(value.value) else []
    case Block(block) => UsesOfBlock(block)
    case If(condition, thenBlock, orElse) => UsesOf(condition) + UsesOfBlock(thenBlock) + UsesOfElse(orElse)
    case While(condition, body) => UsesOf(condition) + UsesOfBlock(body)
    case For(binding, iterable, body) => UsesOf(iterable) + Without(UsesOfBlock(body), {binding})
    case Break => []
    case Continue => []
    case Do(expression) => UsesOf(expression)
  }

  function UsesOfElse(orElse: Else): seq<string>
    decreases orElse
  {
    match orElse
    case NoElse => []
    case ElseBlock(block) => UsesOfBlock(block)
    case ElseIf(condition, thenBlock, rest) => UsesOf(condition) + UsesOfBlock(thenBlock) + UsesOfElse(rest)
  }

  ghost function Restrict(env: Env, names: seq<string>): Env {
    map name | name in env && name in names :: env[name]
  }

  ghost function NewClosure(p: Program, home: nat, parameters: List<string>, body: List<Stmt>, env: Env): Value {
    Callable(Code(home, parameters, body,
      if p.lifted then Restrict(env, UsesOf(Closure(parameters, body))) else env))
  }

  // ---- Evaluation, of code that belongs to the module `home` ----

  ghost function Eval(p: Program, home: nat, fuel: nat, e: Expr, env: Env, store: Store): Outcome
    decreases fuel, e, 0
  {
    match e
    case Constant(literal) => Done(Data(literal), store)
    case Variable(name) => if name in env then Read(env[name], store) else Failed
    case Unary(operator, operand) =>
      var o := Eval(p, home, fuel, operand, env, store);
      if o.Done? then OperateUnary(p, operator, o.value, o.store) else o
    case Binary(operator, left, right) =>
      var o := Eval(p, home, fuel, left, env, store);
      if !o.Done? then o else
      var settled := Settle(p, operator, o.value, o.store);
      if settled.Some? then settled.value else
      var q := Eval(p, home, fuel, right, env, o.store);
      if q.Done? then OperateBinary(p, operator, o.value, q.value, q.store) else q
    case Index(receiver, index) =>
      var o := Eval(p, home, fuel, receiver, env, store);
      if !o.Done? then o else
      var q := Eval(p, home, fuel, index, env, o.store);
      if q.Done? then Lookup(o.value, q.value, q.store) else q
    case Make(tag, elements) =>
      var o := EvalAll(p, home, fuel, elements, env, store);
      if o.Done? then Allocate(tag, o.value, o.store) else o
    case Call(callee, arguments) =>
      var o := EvalAll(p, home, fuel, arguments, env, store);
      if !o.Done? then o else
      var code := Called(p, home, callee, env, o.store);
      if code.None? || !o.value.Tuple? || Length(o.value.items) != Length(code.value.parameters) then Failed
      else if fuel == 0 then Timeout
      else
        FromCall(EvalBlock(p, code.value.home, fuel - 1, code.value.body,
          BindEnv(code.value.parameters, code.value.env, |o.store|), BindStore(o.value.items, o.store)))
    case Closure(parameters, body) => Done(NewClosure(p, home, parameters, body, env), store)
    case Match(value, arms) =>
      var o := Eval(p, home, fuel, value, env, store);
      if o.Done? then EvalArms(p, home, fuel, arms, o.value, env, o.store) else o
  }

  /** The values of a list of expressions, as one Tuple. */
  ghost function EvalAll(p: Program, home: nat, fuel: nat, es: List<Expr>, env: Env, store: Store): Outcome
    decreases fuel, es, 0
  {
    if es.Nil? then Done(Tuple("", Nil), store) else
    var o := Eval(p, home, fuel, es.head, env, store);
    if !o.Done? then o else
    var q := EvalAll(p, home, fuel, es.tail, env, o.store);
    if !q.Done? then q else
    if q.value.Tuple? then Done(Tuple("", Cons(o.value, q.value.items)), q.store) else Failed
  }

  ghost function EvalArms(p: Program, home: nat, fuel: nat, arms: List<Arm>, value: Value, env: Env,
                          store: Store): Outcome
    decreases fuel, arms, 0
  {
    if arms.Nil? then Failed else
    var payload := Matched(arms.head.pattern, value, store);
    if payload.None? then EvalArms(p, home, fuel, arms.tail, value, env, store)
    else EvalArmBody(p, home, fuel, arms.head.body, BindEnv(Bindings(arms.head.pattern), env, |store|),
      BindStore(payload.value, store))
  }

  ghost function EvalArmBody(p: Program, home: nat, fuel: nat, body: ArmBody, env: Env, store: Store): Outcome
    decreases fuel, body, 0
  {
    match body
    case Value(value) => Eval(p, home, fuel, value, env, store)
    case Body(block) => EvalBlock(p, home, fuel, block, env, store)
  }

  ghost function EvalBlock(p: Program, home: nat, fuel: nat, block: List<Stmt>, env: Env, store: Store): Outcome
    decreases fuel, block, 0
  {
    if block.Nil? then Done(UNIT, store)
    else if block.head.Let? then
      var o := Eval(p, home, fuel, block.head.value, env, store);
      if o.Done? then EvalBlock(p, home, fuel, block.tail, env[block.head.name := |o.store|], o.store + [o.value])
        else o
    else
      var o := EvalStmt(p, home, fuel, block.head, env, store);
      if o.Done? then EvalBlock(p, home, fuel, block.tail, env, o.store) else o
  }

  /** A statement that leaves no binding behind. */
  ghost function EvalStmt(p: Program, home: nat, fuel: nat, s: Stmt, env: Env, store: Store): Outcome
    decreases fuel, s, 0
  {
    match s
    case Let(_, _) => Failed
    case Assign(Name(name), value) =>
      var o := Eval(p, home, fuel, value, env, store);
      if !o.Done? then o else if name in env then Write(env[name], o.value, o.store) else Failed
    case Assign(Element(receiver, index), value) =>
      var o := Eval(p, home, fuel, receiver, env, store);
      if !o.Done? then o else
      var q := Eval(p, home, fuel, index, env, o.store);
      if !q.Done? then q else
      var r := Eval(p, home, fuel, value, env, q.store);
      if r.Done? then Update(o.value, q.value, r.value, r.store) else r
    case Return(value) =>
      if value.None? then Returned(UNIT, store) else
      var o := Eval(p, home, fuel, value.value, env, store);
      if o.Done? then Returned(o.value, o.store) else o
    case Block(block) => EvalBlock(p, home, fuel, block, env, store)
    case If(condition, thenBlock, orElse) =>
      var o := Eval(p, home, fuel, condition, env, store);
      if !o.Done? then o
      else if o.value == Data(Bool(true)) then EvalBlock(p, home, fuel, thenBlock, env, o.store)
      else if o.value == Data(Bool(false)) then EvalElse(p, home, fuel, orElse, env, o.store)
      else NoCondition(o.store)
    case While(condition, body) =>
      var o := Eval(p, home, fuel, condition, env, store);
      if !o.Done? then o
      else if o.value == Data(Bool(false)) then Done(UNIT, o.store)
      else if o.value != Data(Bool(true)) then NoCondition(o.store)
      else
        var q := EvalBlock(p, home, fuel, body, env, o.store);
        var next := NextRound(q);
        if next.None? then FromLoop(q)
        else if fuel == 0 then Timeout
        else EvalStmt(p, home, fuel - 1, s, env, next.value)
    case For(binding, iterable, body) =>
      var o := Eval(p, home, fuel, iterable, env, store);
      if !o.Done? then o else
      var behind := Behind(o.value, o.store);
      if behind.Some? then EvalRounds(p, home, fuel, binding, behind.value.items, body, env, o.store) else Failed
    case Break => Broken(store)
    case Continue => Continued(store)
    case Do(expression) => Eval(p, home, fuel, expression, env, store)
  }

  ghost function EvalElse(p: Program, home: nat, fuel: nat, orElse: Else, env: Env, store: Store): Outcome
    decreases fuel, orElse, 0
  {
    match orElse
    case NoElse => Done(UNIT, store)
    case ElseBlock(block) => EvalBlock(p, home, fuel, block, env, store)
    case ElseIf(condition, thenBlock, rest) =>
      var o := Eval(p, home, fuel, condition, env, store);
      if !o.Done? then o
      else if o.value == Data(Bool(true)) then EvalBlock(p, home, fuel, thenBlock, env, o.store)
      else if o.value == Data(Bool(false)) then EvalElse(p, home, fuel, rest, env, o.store)
      else NoCondition(o.store)
  }

  /** The rounds of a `for` loop over the items it found when it began, each with a binding of its own. */
  ghost function EvalRounds(p: Program, home: nat, fuel: nat, binding: string, items: List<Value>, body: List<Stmt>,
                            env: Env, store: Store): Outcome
    decreases fuel, body, 1, items
  {
    if items.Nil? then Done(UNIT, store) else
    var q := EvalBlock(p, home, fuel, body, env[binding := |store|], store + [items.head]);
    var next := NextRound(q);
    if next.None? then FromLoop(q) else EvalRounds(p, home, fuel, binding, items.tail, body, env, next.value)
  }
}
