/** Inlining constants keeps the meaning of every program it accepts. */
module ConstantMeaning {
  import opened Syntax
  import opened Evaluator
  import opened Substitution
  import opened Rewriting
  import opened Wrappers

  /** A program whose constants are held in locations below `cells`, and the constants each module may use. */
  datatype Setting = Setting(p: Program, c: seq<Constants>, cells: nat)

  ghost function At(w: Setting, home: nat): Constants {
    ConstantsOf(w.c, home)
  }

  /** The literal a constant expression stands for. */
  ghost function LiteralOf(p: Program, e: Expr): Option<Literal> {
    match e
    case Constant(literal) => Some(literal)
    case Unary(operator, Constant(literal)) =>
      var answer := p.operators.unary(operator, Datum(literal));
      if operator == "-" && !answer.leaves && answer.response.Gives? then Some(answer.response.literal) else None
    case _ => None
  }

  function InlineFunction(c: seq<Constants>, f: Function): Function {
    Function(f.home, f.parameters, InlineBlock(ConstantsOf(c, f.home), NameSet(f.parameters), f.body))
  }

  /** The program after the pass: no constants, and every function rewritten. */
  ghost function Inlined(w: Setting): Program {
    w.p.(functions := map name | name in w.p.functions :: InlineFunction(w.c, w.p.functions[name]), constants := map[])
  }

  ghost function Locals(w: Setting, env: Env): set<string> {
    Strip(env, w.cells).Keys
  }

  ghost function Rewriter(w: Setting): Rewrite {
    Inlining(w.c, w.cells)
  }

  /** The pass accepted every function, constants are literals, and no constant is named like a function. */
  ghost predicate Accepted(w: Setting) {
    && !w.p.lifted
    && (forall name {:trigger w.p.constants[name]} :: name in w.p.constants ==>
         w.p.constants[name] < w.cells && name !in w.p.functions)
    && (forall home: nat {:trigger Globals(w.p, home)} :: Covered(w, home))
    && (forall name {:trigger w.p.functions[name]} :: name in w.p.functions ==> Reportless(w, w.p.functions[name]))
  }

  /** The constants a module may use are literals. */
  ghost predicate Covered(w: Setting, home: nat) {
    && Globals(w.p, home).Keys == At(w, home).visible.Keys
    && forall name {:trigger At(w, home).visible[name]} :: name in At(w, home).visible ==>
         LiteralOf(w.p, At(w, home).visible[name]).Some?
  }

  ghost predicate Reportless(w: Setting, f: Function) {
    ReportBlock(At(w, f.home), NameSet(f.parameters), f.body) == []
  }

  /** The constants of the module are the outermost bindings. */
  ghost predicate EnvOk(w: Setting, home: nat, env: Env) {
    var globals := Globals(w.p, home);
    && (forall name {:trigger env[name]} :: name in env && env[name] < w.cells ==>
         name in globals && env[name] == globals[name])
    && (forall name {:trigger name in env} :: name in globals ==> name in env)
  }

  ghost predicate ValueOk(w: Setting, value: Value)
    decreases value
  {
    match value
    case Data(_) => true
    case Reference(_) => true
    case Tuple(_, items) => ValuesOk(w, items)
    case Callable(code) =>
      && EnvOk(w, code.home, code.env)
      && ReportBlock(At(w, code.home), Locals(w, code.env) + NameSet(code.parameters), code.body) == []
  }

  ghost predicate ValuesOk(w: Setting, values: List<Value>)
    decreases values
  {
    values.Cons? ==> ValueOk(w, values.head) && ValuesOk(w, values.tail)
  }

  ghost predicate StoreOk(w: Setting, store: Store) {
    && w.cells <= |store|
    && (forall i {:trigger store[i]} :: 0 <= i < |store| ==> ValueOk(w, store[i]))
    && (forall home: nat {:trigger Globals(w.p, home)} {:trigger CellsHold(w, home, store)} ::
      CellsHold(w, home, store))
  }

  /** The locations of the constants a module may use hold their literals. */
  ghost predicate CellsHold(w: Setting, home: nat, store: Store) {
    var globals, visible := Globals(w.p, home), At(w, home).visible;
    forall name {:trigger globals[name]} :: name in globals && name in visible ==>
      && globals[name] < w.cells <= |store|
      && LiteralOf(w.p, visible[name]).Some?
      && store[globals[name]] == Data(LiteralOf(w.p, visible[name]).value)
  }

  ghost predicate OutcomeOk(w: Setting, o: Outcome) {
    match o
    case Done(value, store) => ValueOk(w, value) && StoreOk(w, store)
    case Returned(value, store) => ValueOk(w, value) && StoreOk(w, store)
    case Broken(store) => StoreOk(w, store)
    case Continued(store) => StoreOk(w, store)
    case Failed => true
    case Timeout => true
  }

  /** `after` is the same run of the rewritten program as `before` is of the original one. */
  ghost predicate Same(w: Setting, before: Outcome, after: Outcome) {
    OutcomeOk(w, before) && after == RewriteOutcome(Rewriter(w), before)
  }

  // ---- Environments ----

  lemma {:induction false} BindEnvStrips(w: Setting, home: nat, names: List<string>, env: Env, next: nat)
    requires EnvOk(w, home, env) && w.cells <= next
    ensures EnvOk(w, home, BindEnv(names, env, next))
    ensures BindEnv(names, Strip(env, w.cells), next) == Strip(BindEnv(names, env, next), w.cells)
    ensures Locals(w, BindEnv(names, env, next)) == Locals(w, env) + NameSet(names)
  {
    if names.Cons? {
      OneBindingStrips(w, home, names.head, env, next);
      BindEnvStrips(w, home, names.tail, env[names.head := next], next + 1);
    }
  }

  lemma OneBindingStrips(w: Setting, home: nat, name: string, env: Env, next: nat)
    requires EnvOk(w, home, env) && w.cells <= next
    ensures EnvOk(w, home, env[name := next])
    ensures Strip(env, w.cells)[name := next] == Strip(env[name := next], w.cells)
    ensures Locals(w, env[name := next]) == Locals(w, env) + {name}
  {}

  // ---- Steps that evaluate nothing ----

  lemma PushOk(w: Setting, value: Value, store: Store)
    requires StoreOk(w, store) && ValueOk(w, value)
    ensures StoreOk(w, store + [value])
  {
    hide ValueOk, LiteralOf, Globals, At;
    var longer := store + [value];
    forall i | 0 <= i < |longer| ensures ValueOk(w, longer[i]) {
      assert i < |store| ==> longer[i] == store[i];
    }
    forall home: nat ensures CellsHold(w, home, longer) {
      assert CellsHold(w, home, store);
    }
  }

  /** A location that holds no constant may be given another value. */
  lemma ReplaceOk(w: Setting, location: nat, value: Value, store: Store)
    requires StoreOk(w, store) && ValueOk(w, value) && location < |store|
    requires w.cells <= location || !store[location].Data?
    ensures StoreOk(w, store[location := value])
  {
    hide ValueOk, LiteralOf, Globals, At;
    var changed := store[location := value];
    forall i | 0 <= i < |changed| ensures ValueOk(w, changed[i]) {
      assert i != location ==> changed[i] == store[i];
    }
    forall home: nat ensures CellsHold(w, home, changed) {
      assert CellsHold(w, home, store);
    }
  }

  lemma {:induction false} BindStoreOk(w: Setting, values: List<Value>, store: Store)
    requires StoreOk(w, store) && ValuesOk(w, values)
    ensures StoreOk(w, BindStore(values, store)) && |store| <= |BindStore(values, store)|
  {
    hide StoreOk;
    if values.Cons? {
      PushOk(w, values.head, store);
      BindStoreOk(w, values.tail, store + [values.head]);
    }
  }

  lemma BehindOk(w: Setting, value: Value, store: Store)
    requires StoreOk(w, store) && Behind(value, store).Some?
    ensures ValuesOk(w, Behind(value, store).value.items)
  {
    hide LiteralOf;
    assert ValueOk(w, store[value.location]);
  }

  lemma {:induction false} ItemOk(w: Setting, items: List<Value>, index: nat)
    requires ValuesOk(w, items)
    ensures ItemAt(items, index).Some? ==> ValueOk(w, ItemAt(items, index).value)
  {
    if items.Cons? && index > 0 {
      ItemOk(w, items.tail, index - 1);
    }
  }

  lemma {:induction false} WithItemOk(w: Setting, items: List<Value>, index: nat, item: Value)
    requires ValuesOk(w, items) && ValueOk(w, item)
    ensures ValuesOk(w, WithItem(items, index, item))
  {
    if items.Cons? && index > 0 {
      WithItemOk(w, items.tail, index - 1, item);
    }
  }

  lemma LookupSame(w: Setting, receiver: Value, index: Value, store: Store)
    requires StoreOk(w, store)
    ensures Same(w, Lookup(receiver, index, store),
                 Lookup(RewriteValue(Rewriter(w), receiver), RewriteValue(Rewriter(w), index),
                   RewriteStore(Rewriter(w), store)))
  {
    hide StoreOk, Rewritten, RewriteStore, RewriteValue;
    LookupRewrites(Rewriter(w), receiver, index, store);
    if Behind(receiver, store).Some? && Position(index).Some? {
      BehindOk(w, receiver, store);
      ItemOk(w, Behind(receiver, store).value.items, Position(index).value);
    }
  }

  lemma UpdateSame(w: Setting, receiver: Value, index: Value, value: Value, store: Store)
    requires Accepted(w) && StoreOk(w, store) && ValueOk(w, value)
    ensures Same(w, Update(receiver, index, value, store),
                 Update(RewriteValue(Rewriter(w), receiver), RewriteValue(Rewriter(w), index),
                   RewriteValue(Rewriter(w), value), RewriteStore(Rewriter(w), store)))
  {
    hide StoreOk, Rewritten, RewriteStore, RewriteValue;
    UpdateRewrites(Rewriter(w), receiver, index, value, store);
    if Behind(receiver, store).Some? && Position(index).Some? {
      var behind, position := Behind(receiver, store).value, Position(index).value;
      BehindOk(w, receiver, store);
      WithItemOk(w, behind.items, position, value);
      ReplaceOk(w, receiver.location, Tuple(behind.tag, WithItem(behind.items, position, value)), store);
    }
  }

  lemma RespondSame(w: Setting, answer: Answer, operand: Value, store: Store)
    requires StoreOk(w, store) && ValueOk(w, operand)
    ensures Same(w, Respond(answer, operand, store),
                 Respond(answer, RewriteValue(Rewriter(w), operand), RewriteStore(Rewriter(w), store)))
  {
    hide StoreOk, Rewritten, RewriteStore, RewriteValue;
    RespondRewrites(Rewriter(w), answer, operand, store);
    if answer.response.Raises? {
      PushOk(w, Tuple(answer.response.kind, Nil), store);
    }
  }

  lemma UnarySame(w: Setting, operator: string, operand: Value, store: Store)
    requires StoreOk(w, store) && ValueOk(w, operand)
    ensures Same(w, OperateUnary(w.p, operator, operand, store),
                 OperateUnary(Inlined(w), operator, RewriteValue(Rewriter(w), operand),
                   RewriteStore(Rewriter(w), store)))
  {
    hide StoreOk, Rewritten, RewriteStore, RewriteValue, Respond, See, ValueOk, Same;
    SeeRewrites(Rewriter(w), operand, store);
    RespondSame(w, w.p.operators.unary(operator, See(operand, store)), operand, store);
  }

  lemma BinarySame(w: Setting, operator: string, left: Value, right: Value, store: Store)
    requires StoreOk(w, store) && ValueOk(w, right)
    ensures Same(w, OperateBinary(w.p, operator, left, right, store),
                 OperateBinary(Inlined(w), operator, RewriteValue(Rewriter(w), left), RewriteValue(Rewriter(w), right),
                               RewriteStore(Rewriter(w), store)))
  {
    hide StoreOk, Rewritten, RewriteStore, RewriteValue, Respond, See, ValueOk, Same;
    SeeRewrites(Rewriter(w), left, store);
    SeeRewrites(Rewriter(w), right, store);
    RespondSame(w, w.p.operators.binary(operator, See(left, store), See(right, store)), right, store);
  }

  lemma SettleSame(w: Setting, operator: string, left: Value, store: Store)
    requires StoreOk(w, store) && ValueOk(w, left)
    ensures var before := Settle(w.p, operator, left, store);
      var after := Settle(Inlined(w), operator, RewriteValue(Rewriter(w), left), RewriteStore(Rewriter(w), store));
      && (before.Some? <==> after.Some?)
      && (before.Some? ==> Same(w, before.value, after.value))
  {
    hide StoreOk, Rewritten, RewriteStore, RewriteValue, Respond, See, ValueOk, Same;
    SeeRewrites(Rewriter(w), left, store);
    var settled := w.p.operators.settle(operator, See(left, store));
    if settled.Some? {
      RespondSame(w, settled.value, left, store);
    }
  }

  lemma NoConditionSame(w: Setting, store: Store)
    requires StoreOk(w, store)
    ensures Same(w, NoCondition(store), NoCondition(RewriteStore(Rewriter(w), store)))
  {
    RespondSame(w, Answer(Raises("TypeError"), true), UNIT, store);
    hide StoreOk, Rewritten, RewriteStore, Respond, Same;
  }

  lemma AllocateSame(w: Setting, tag: string, items: Value, store: Store)
    requires StoreOk(w, store) && ValueOk(w, items)
    ensures Same(w, Allocate(tag, items, store),
                 Allocate(tag, RewriteValue(Rewriter(w), items), RewriteStore(Rewriter(w), store)))
  {
    hide StoreOk, Rewritten, RewriteStore, RewriteValue;
    AllocateRewrites(Rewriter(w), tag, items, store);
    if items.Tuple? {
      PushOk(w, Tuple(tag, items.items), store);
    }
  }

  lemma MatchedSame(w: Setting, pattern: Pattern, value: Value, store: Store)
    requires StoreOk(w, store)
    ensures Matched(pattern, value, store).None? ==>
      Matched(pattern, RewriteValue(Rewriter(w), value), RewriteStore(Rewriter(w), store)).None?
    ensures Matched(pattern, value, store).Some? ==>
      && ValuesOk(w, Matched(pattern, value, store).value)
      && Matched(pattern, RewriteValue(Rewriter(w), value), RewriteStore(Rewriter(w), store))
        == Some(RewriteValues(Rewriter(w), Matched(pattern, value, store).value))
  {
    hide StoreOk, Rewritten, RewriteStore, RewriteValue;
    MatchedRewrites(Rewriter(w), pattern, value, store);
    if Behind(value, store).Some? {
      BehindOk(w, value, store);
    }
  }

  lemma BindStoreSame(w: Setting, values: List<Value>, store: Store)
    requires StoreOk(w, store) && ValuesOk(w, values)
    ensures StoreOk(w, BindStore(values, store)) && w.cells <= |store|
    ensures BindStore(RewriteValues(Rewriter(w), values), RewriteStore(Rewriter(w), store))
         == RewriteStore(Rewriter(w), BindStore(values, store))
  {
    BindStoreOk(w, values, store);
    BindStoreRewrites(Rewriter(w), values, store);
  }

  // ---- Names ----

  lemma VariableSame(w: Setting, home: nat, fuel: nat, name: string, env: Env, store: Store)
    requires Accepted(w) && EnvOk(w, home, env) && StoreOk(w, store)
    ensures Same(w, Eval(w.p, home, fuel, Variable(name), env, store),
                 Eval(Inlined(w), home, fuel, InlineExpr(At(w, home), Locals(w, env), Variable(name)),
                   Strip(env, w.cells), RewriteStore(Rewriter(w), store)))
  {
    if name in env && env[name] >= w.cells {
      ReadRewrites(Rewriter(w), env[name], store);
      assert env[name] < |store| ==> ValueOk(w, store[env[name]]);
    } else if name in env {
      ConstantReads(w, home, fuel, name, Strip(env, w.cells), store);
    }
  }

  /** A constant's expression evaluates to what its location holds. */
  lemma ConstantReads(w: Setting, home: nat, fuel: nat, name: string, env: Env, store: Store)
    requires Accepted(w) && name in Globals(w.p, home) && StoreOk(w, store)
    ensures Eval(Inlined(w), home, fuel, At(w, home).visible[name], env, RewriteStore(Rewriter(w), store))
         == Done(store[Globals(w.p, home)[name]], RewriteStore(Rewriter(w), store))
    ensures store[Globals(w.p, home)[name]].Data?
  {
    var e := At(w, home).visible[name];
    assert LiteralOf(w.p, e).Some?;
    if e.Unary? {
      assert Eval(Inlined(w), home, fuel, e.operand, env, RewriteStore(Rewriter(w), store)).Done?;
    }
  }

  lemma CalledSame(w: Setting, home: nat, callee: string, env: Env, store: Store)
    requires Accepted(w) && EnvOk(w, home, env) && StoreOk(w, store)
    ensures Called(w.p, home, callee, env, store).None? ==>
      Called(Inlined(w), home, callee, Strip(env, w.cells), RewriteStore(Rewriter(w), store)).None?
    ensures Called(w.p, home, callee, env, store).Some? ==>
      && ValueOk(w, Callable(Called(w.p, home, callee, env, store).value))
      && Called(Inlined(w), home, callee, Strip(env, w.cells), RewriteStore(Rewriter(w), store))
        == Some(Rewritten(Rewriter(w), Called(w.p, home, callee, env, store).value))
  {
    if callee in env && env[callee] >= w.cells {
      assert env[callee] < |store| ==> ValueOk(w, store[env[callee]]);
    } else if callee !in env {
      var name := Canonical(w.p, home, callee);
      if name.Some? && name.value in w.p.functions {
        GlobalsOk(w, w.p.functions[name.value]);
      }
    }
  }

  // ---- Runs ----

  lemma {:induction false} ExprSame(w: Setting, home: nat, fuel: nat, e: Expr, env: Env, store: Store)
    requires Accepted(w) && EnvOk(w, home, env) && StoreOk(w, store) && ReportExpr(At(w, home), Locals(w, env), e) == []
    ensures Same(w, Eval(w.p, home, fuel, e, env, store),
                 Eval(Inlined(w), home, fuel, InlineExpr(At(w, home), Locals(w, env), e), Strip(env, w.cells),
                   RewriteStore(Rewriter(w), store)))
    decreases fuel, e, 1
  {
    hide StoreOk, EnvOk, Accepted, Rewritten, RewriteStore, Called, Lookup, Allocate, InlineArms, InlineAll, EvalAll;
    hide OperateUnary, Settle, OperateBinary, Inlined;
    var r, locals := Rewriter(w), Locals(w, env);
    match e {
      case Constant(_) =>
      case Variable(name) => VariableSame(w, home, fuel, name, env, store);
      case Unary(operator, operand) =>
        ExprSame(w, home, fuel, operand, env, store);
        var o := Eval(w.p, home, fuel, operand, env, store);
        if o.Done? {
          UnarySame(w, operator, o.value, o.store);
        }
      case Binary(operator, left, right) =>
        ExprSame(w, home, fuel, left, env, store);
        var o := Eval(w.p, home, fuel, left, env, store);
        if o.Done? {
          SettleSame(w, operator, o.value, o.store);
          if Settle(w.p, operator, o.value, o.store).None? {
            ExprSame(w, home, fuel, right, env, o.store);
            var q := Eval(w.p, home, fuel, right, env, o.store);
            if q.Done? {
              BinarySame(w, operator, o.value, q.value, q.store);
            }
          }
        }
      case Index(receiver, index) =>
        ExprSame(w, home, fuel, receiver, env, store);
        var o := Eval(w.p, home, fuel, receiver, env, store);
        if o.Done? {
          ExprSame(w, home, fuel, index, env, o.store);
          var q := Eval(w.p, home, fuel, index, env, o.store);
          if q.Done? {
            LookupSame(w, o.value, q.value, q.store);
          }
        }
      case Make(tag, elements) =>
        AllSame(w, home, fuel, elements, env, store);
        var o := EvalAll(w.p, home, fuel, elements, env, store);
        if o.Done? {
          AllocateSame(w, tag, o.value, o.store);
        }
      case Call(callee, arguments) => CallSame(w, home, fuel, e, env, store);
      case Closure(parameters, body) => ClosureSame(w, home, e, env, store);
      case Match(value, arms) =>
        ExprSame(w, home, fuel, value, env, store);
        var o := Eval(w.p, home, fuel, value, env, store);
        if o.Done? {
          ArmsSame(w, home, fuel, arms, o.value, env, o.store);
        }
    }
  }

  lemma ClosureSame(w: Setting, home: nat, e: Expr, env: Env, store: Store)
    requires Accepted(w) && EnvOk(w, home, env) && StoreOk(w, store) && e.Closure?
    requires ReportExpr(At(w, home), Locals(w, env), e) == []
    ensures Same(w, Done(NewClosure(w.p, home, e.parameters, e.body, env), store),
                 Done(NewClosure(Inlined(w), home, e.parameters,
                   InlineBlock(At(w, home), Locals(w, env) + NameSet(e.parameters), e.body), Strip(env, w.cells)),
                   RewriteStore(Rewriter(w), store)))
  {
    hide StoreOk, EnvOk, RewriteStore, InlineBlock;
  }

  lemma {:induction false} CallSame(w: Setting, home: nat, fuel: nat, e: Expr, env: Env, store: Store)
    requires Accepted(w) && EnvOk(w, home, env) && StoreOk(w, store) && ReportExpr(At(w, home), Locals(w, env), e) == []
    requires e.Call?
    ensures Same(w, Eval(w.p, home, fuel, e, env, store),
                 Eval(Inlined(w), home, fuel, InlineExpr(At(w, home), Locals(w, env), e), Strip(env, w.cells),
                   RewriteStore(Rewriter(w), store)))
    decreases fuel, e, 0
  {
    hide StoreOk, EnvOk, Accepted, RewriteStore, Called, EvalAll, InlineAll, InlineBlock, EvalBlock, BindEnv;
    hide BindStore, Strip;
    hide Inlined, ReportBlock;
    hide Canonical, Globals, NewClosure;
    AllSame(w, home, fuel, e.arguments, env, store);
    var o := EvalAll(w.p, home, fuel, e.arguments, env, store);
    if o.Done? && o.value.Tuple? {
      CalledSame(w, home, e.callee, env, o.store);
      var called := Called(w.p, home, e.callee, env, o.store);
      if called.Some? && Length(o.value.items) == Length(called.value.parameters) && fuel > 0 {
        EnterSame(w, called.value.home, fuel - 1, called.value.parameters, called.value.body, called.value.env,
          o.value.items, o.store);
      }
    }
  }

  lemma {:induction false} EnterSame(w: Setting, home: nat, fuel: nat, parameters: List<string>, body: List<Stmt>,
                                     env: Env, items: List<Value>, store: Store)
    requires Accepted(w) && StoreOk(w, store) && ValuesOk(w, items) && EnvOk(w, home, env)
    requires ReportBlock(At(w, home), Locals(w, env) + NameSet(parameters), body) == []
    ensures Same(w, EvalBlock(w.p, home, fuel, body, BindEnv(parameters, env, |store|), BindStore(items, store)),
                 EvalBlock(Inlined(w), home, fuel,
                           InlineBlock(At(w, home), Locals(w, env) + NameSet(parameters), body),
                           BindEnv(parameters, Strip(env, w.cells), |store|),
                           BindStore(RewriteValues(Rewriter(w), items), RewriteStore(Rewriter(w), store))))
    decreases fuel, body, 2
  {
    hide StoreOk, EnvOk, Accepted, RewriteStore, InlineBlock, EvalBlock, BindEnv, BindStore, Strip, Inlined;
    hide ReportBlock;
    BindStoreSame(w, items, store);
    BindEnvStrips(w, home, parameters, env, |store|);
    BlockSame(w, home, fuel, body, BindEnv(parameters, env, |store|), BindStore(items, store));
  }

  lemma {:induction false} AllSame(w: Setting, home: nat, fuel: nat, es: List<Expr>, env: Env, store: Store)
    requires Accepted(w) && EnvOk(w, home, env) && StoreOk(w, store) && ReportAll(At(w, home), Locals(w, env), es) == []
    ensures Same(w, EvalAll(w.p, home, fuel, es, env, store),
                 EvalAll(Inlined(w), home, fuel, InlineAll(At(w, home), Locals(w, env), es), Strip(env, w.cells),
                   RewriteStore(Rewriter(w), store)))
    decreases fuel, es, 1
  {
    hide StoreOk, EnvOk, Accepted, Rewritten, RewriteStore, Eval, InlineExpr;
    if es.Cons? {
      ExprSame(w, home, fuel, es.head, env, store);
      var o := Eval(w.p, home, fuel, es.head, env, store);
      if o.Done? {
        AllSame(w, home, fuel, es.tail, env, o.store);
        var q := EvalAll(w.p, home, fuel, es.tail, env, o.store);
        if q.Done? && q.value.Tuple? {
          var items := Cons(o.value, q.value.items);
          assert ValuesOk(w, items);
          assert RewriteValues(Rewriter(w), items)
              == Cons(RewriteValue(Rewriter(w), o.value), RewriteValues(Rewriter(w), q.value.items));
        }
      }
    }
  }

  lemma {:induction false} ArmsSame(w: Setting, home: nat, fuel: nat, arms: List<Arm>, value: Value, env: Env,
                                    store: Store)
    requires Accepted(w) && EnvOk(w, home, env) && StoreOk(w, store)
    requires ReportArms(At(w, home), Locals(w, env), arms) == []
    ensures Same(w, EvalArms(w.p, home, fuel, arms, value, env, store),
                 EvalArms(Inlined(w), home, fuel, InlineArms(At(w, home), Locals(w, env), arms),
                   RewriteValue(Rewriter(w), value), Strip(env, w.cells), RewriteStore(Rewriter(w), store)))
    decreases fuel, arms, 1
  {
    hide StoreOk, EnvOk, Accepted, Rewritten, RewriteStore, RewriteValue, Matched, BindEnv, BindStore, EvalArmBody;
    hide InlineArmBody;
    if arms.Cons? {
      MatchedSame(w, arms.head.pattern, value, store);
      var payload := Matched(arms.head.pattern, value, store);
      if payload.None? {
        ArmsSame(w, home, fuel, arms.tail, value, env, store);
      } else {
        BindStoreSame(w, payload.value, store);
        BindEnvStrips(w, home, Bindings(arms.head.pattern), env, |store|);
        ArmBodySame(w, home, fuel, arms.head.body, BindEnv(Bindings(arms.head.pattern), env, |store|),
          BindStore(payload.value, store));
      }
    }
  }

  lemma {:induction false} ArmBodySame(w: Setting, home: nat, fuel: nat, body: ArmBody, env: Env, store: Store)
    requires Accepted(w) && EnvOk(w, home, env) && StoreOk(w, store)
    requires ReportArmBody(At(w, home), Locals(w, env), body) == []
    ensures Same(w, EvalArmBody(w.p, home, fuel, body, env, store),
                 EvalArmBody(Inlined(w), home, fuel, InlineArmBody(At(w, home), Locals(w, env), body),
                   Strip(env, w.cells), RewriteStore(Rewriter(w), store)))
    decreases fuel, body, 1
  {
    hide StoreOk, EnvOk, Accepted, Rewritten, RewriteStore, Eval, InlineExpr, EvalBlock, InlineBlock;
    match body {
      case Value(value) => ExprSame(w, home, fuel, value, env, store);
      case Body(block) => BlockSame(w, home, fuel, block, env, store);
    }
  }

  lemma {:induction false} BlockSame(w: Setting, home: nat, fuel: nat, block: List<Stmt>, env: Env, store: Store)
    requires Accepted(w) && EnvOk(w, home, env) && StoreOk(w, store)
    requires ReportBlock(At(w, home), Locals(w, env), block) == []
    ensures Same(w, EvalBlock(w.p, home, fuel, block, env, store),
                 EvalBlock(Inlined(w), home, fuel, InlineBlock(At(w, home), Locals(w, env), block),
                   Strip(env, w.cells), RewriteStore(Rewriter(w), store)))
    decreases fuel, block, 1
  {
    hide EnvOk, Accepted, Rewritten, RewriteStore, Eval, InlineExpr, EvalStmt;
    if block.Nil? {
    } else if block.head.Let? {
      LetSame(w, home, fuel, block, env, store);
    } else {
      hide StoreOk;
      StmtSame(w, home, fuel, block.head, env, store);
      assert Locals(w, env) + Declared(block.head) == Locals(w, env);
      var o := EvalStmt(w.p, home, fuel, block.head, env, store);
      if o.Done? {
        BlockSame(w, home, fuel, block.tail, env, o.store);
      }
    }
  }

  lemma {:induction false} LetSame(w: Setting, home: nat, fuel: nat, block: List<Stmt>, env: Env, store: Store)
    requires Accepted(w) && EnvOk(w, home, env) && StoreOk(w, store)
    requires ReportBlock(At(w, home), Locals(w, env), block) == []
    requires block.Cons? && block.head.Let?
    ensures Same(w, EvalBlock(w.p, home, fuel, block, env, store),
                 EvalBlock(Inlined(w), home, fuel, InlineBlock(At(w, home), Locals(w, env), block),
                   Strip(env, w.cells), RewriteStore(Rewriter(w), store)))
    decreases fuel, block, 0
  {
    hide EnvOk, StoreOk, Accepted, Rewritten, RewriteStore, Eval, InlineExpr, EvalStmt;
    ExprSame(w, home, fuel, block.head.value, env, store);
    var o := Eval(w.p, home, fuel, block.head.value, env, store);
    if o.Done? {
      StoreSize(w, o.store);
      OneBindingStrips(w, home, block.head.name, env, |o.store|);
      PushOk(w, o.value, o.store);
      PushRewrites(Rewriter(w), o.value, o.store);
      BlockSame(w, home, fuel, block.tail, env[block.head.name := |o.store|], o.store + [o.value]);
    }
  }

  lemma StoreSize(w: Setting, store: Store)
    requires StoreOk(w, store)
    ensures w.cells <= |store|
  {}

  lemma {:induction false} StmtSame(w: Setting, home: nat, fuel: nat, s: Stmt, env: Env, store: Store)
    requires Accepted(w) && EnvOk(w, home, env) && StoreOk(w, store) && ReportStmt(At(w, home), Locals(w, env), s) == []
    requires !s.Let?
    ensures Same(w, EvalStmt(w.p, home, fuel, s, env, store),
                 EvalStmt(Inlined(w), home, fuel, InlineStmt(At(w, home), Locals(w, env), s), Strip(env, w.cells),
                   RewriteStore(Rewriter(w), store)))
    decreases fuel, s, 1
  {
    hide EnvOk, StoreOk, Accepted, Rewritten, RewriteStore, Eval, InlineExpr, EvalBlock, InlineBlock, EvalElse;
    hide InlineElse, EvalRounds;
    match s {
      case Assign(_, _) => AssignSame(w, home, fuel, s, env, store);
      case Return(None) =>
      case Return(Some(value)) => ExprSame(w, home, fuel, value, env, store);
      case Block(block) => BlockSame(w, home, fuel, block, env, store);
      case If(condition, thenBlock, orElse) =>
        ExprSame(w, home, fuel, condition, env, store);
        var o := Eval(w.p, home, fuel, condition, env, store);
        if o.Done? {
          NoConditionSame(w, o.store);
          BlockSame(w, home, fuel, thenBlock, env, o.store);
          ElseSame(w, home, fuel, orElse, env, o.store);
        }
      case While(_, _) => WhileSame(w, home, fuel, s, env, store);
      case For(_, _, _) => ForSame(w, home, fuel, s, env, store);
      case Break =>
      case Continue =>
      case Do(expression) => ExprSame(w, home, fuel, expression, env, store);
    }
  }

  lemma {:induction false} AssignSame(w: Setting, home: nat, fuel: nat, s: Stmt, env: Env, store: Store)
    requires Accepted(w) && EnvOk(w, home, env) && StoreOk(w, store) && ReportStmt(At(w, home), Locals(w, env), s) == []
    requires s.Assign?
    ensures Same(w, EvalStmt(w.p, home, fuel, s, env, store),
                 EvalStmt(Inlined(w), home, fuel, InlineStmt(At(w, home), Locals(w, env), s), Strip(env, w.cells),
                   RewriteStore(Rewriter(w), store)))
    decreases fuel, s, 0
  {
    hide StoreOk, Rewritten, RewriteStore, Eval, InlineExpr, Update, Write;
    match s.target {
      case Name(name) =>
        ExprSame(w, home, fuel, s.value, env, store);
        var o := Eval(w.p, home, fuel, s.value, env, store);
        if o.Done? && name in env {
          // A constant in scope would have been reported.
          assert name in Locals(w, env);
          WriteSame(w, env[name], o.value, o.store);
        }
      case Element(receiver, index) =>
        ExprSame(w, home, fuel, receiver, env, store);
        var o := Eval(w.p, home, fuel, receiver, env, store);
        if o.Done? {
          ExprSame(w, home, fuel, index, env, o.store);
          var q := Eval(w.p, home, fuel, index, env, o.store);
          if q.Done? {
            ExprSame(w, home, fuel, s.value, env, q.store);
            var v := Eval(w.p, home, fuel, s.value, env, q.store);
            if v.Done? {
              UpdateSame(w, o.value, q.value, v.value, v.store);
            }
          }
        }
    }
  }

  lemma WriteSame(w: Setting, location: nat, value: Value, store: Store)
    requires Accepted(w) && StoreOk(w, store) && ValueOk(w, value) && w.cells <= location
    ensures Same(w, Write(location, value, store),
                 Write(location, RewriteValue(Rewriter(w), value), RewriteStore(Rewriter(w), store)))
  {
    WriteRewrites(Rewriter(w), location, value, store);
    if location < |store| {
      ReplaceOk(w, location, value, store);
    }
    hide StoreOk, Rewritten, RewriteStore, RewriteValue, ValueOk;
  }

  lemma {:induction false} WhileSame(w: Setting, home: nat, fuel: nat, s: Stmt, env: Env, store: Store)
    requires Accepted(w) && EnvOk(w, home, env) && StoreOk(w, store) && ReportStmt(At(w, home), Locals(w, env), s) == []
    requires s.While?
    ensures Same(w, EvalStmt(w.p, home, fuel, s, env, store),
                 EvalStmt(Inlined(w), home, fuel, InlineStmt(At(w, home), Locals(w, env), s), Strip(env, w.cells),
                   RewriteStore(Rewriter(w), store)))
    decreases fuel, s, 0
  {
    hide EnvOk, StoreOk, Accepted, Rewritten, RewriteStore, Eval, InlineExpr, EvalBlock, InlineBlock;
    ExprSame(w, home, fuel, s.condition, env, store);
    var o := Eval(w.p, home, fuel, s.condition, env, store);
    if o.Done? {
      NoConditionSame(w, o.store);
      BlockSame(w, home, fuel, s.body, env, o.store);
      var next := NextRound(EvalBlock(w.p, home, fuel, s.body, env, o.store));
      if next.Some? && fuel > 0 {
        StmtSame(w, home, fuel - 1, s, env, next.value);
      }
    }
  }

  lemma {:induction false} ForSame(w: Setting, home: nat, fuel: nat, s: Stmt, env: Env, store: Store)
    requires Accepted(w) && EnvOk(w, home, env) && StoreOk(w, store) && ReportStmt(At(w, home), Locals(w, env), s) == []
    requires s.For?
    ensures Same(w, EvalStmt(w.p, home, fuel, s, env, store),
                 EvalStmt(Inlined(w), home, fuel, InlineStmt(At(w, home), Locals(w, env), s), Strip(env, w.cells),
                   RewriteStore(Rewriter(w), store)))
    decreases fuel, s, 0
  {
    hide EnvOk, StoreOk, Accepted, Rewritten, RewriteStore, Eval, InlineExpr, EvalBlock, InlineBlock, Behind;
    hide EvalRounds;
    ExprSame(w, home, fuel, s.iterable, env, store);
    var o := Eval(w.p, home, fuel, s.iterable, env, store);
    if o.Done? {
      BehindRewrites(Rewriter(w), o.value, o.store);
      var behind := Behind(o.value, o.store);
      if behind.Some? {
        BehindOk(w, o.value, o.store);
        RoundsSame(w, home, fuel, s.binding, behind.value.items, s.body, env, o.store);
      }
    }
  }

  lemma {:induction false} RoundsSame(w: Setting, home: nat, fuel: nat, binding: string, items: List<Value>,
                                      body: List<Stmt>, env: Env, store: Store)
    requires Accepted(w) && EnvOk(w, home, env) && StoreOk(w, store) && ValuesOk(w, items)
    requires ReportBlock(At(w, home), Locals(w, env) + {binding}, body) == []
    ensures Same(w, EvalRounds(w.p, home, fuel, binding, items, body, env, store),
                 EvalRounds(Inlined(w), home, fuel, binding, RewriteValues(Rewriter(w), items),
                   InlineBlock(At(w, home), Locals(w, env) + {binding}, body), Strip(env, w.cells),
                   RewriteStore(Rewriter(w), store)))
    decreases fuel, body, 2, items
  {
    hide EnvOk, StoreOk, Accepted, Rewritten, RewriteStore, EvalBlock, InlineBlock;
    if items.Cons? {
      StoreSize(w, store);
      OneBindingStrips(w, home, binding, env, |store|);
      PushOk(w, items.head, store);
      PushRewrites(Rewriter(w), items.head, store);
      BlockSame(w, home, fuel, body, env[binding := |store|], store + [items.head]);
      var next := NextRound(EvalBlock(w.p, home, fuel, body, env[binding := |store|], store + [items.head]));
      if next.Some? {
        RoundsSame(w, home, fuel, binding, items.tail, body, env, next.value);
      }
    }
  }

  lemma {:induction false} ElseSame(w: Setting, home: nat, fuel: nat, orElse: Else, env: Env, store: Store)
    requires Accepted(w) && EnvOk(w, home, env) && StoreOk(w, store)
    requires ReportElse(At(w, home), Locals(w, env), orElse) == []
    ensures Same(w, EvalElse(w.p, home, fuel, orElse, env, store),
                 EvalElse(Inlined(w), home, fuel, InlineElse(At(w, home), Locals(w, env), orElse), Strip(env, w.cells),
                   RewriteStore(Rewriter(w), store)))
    decreases fuel, orElse, 1
  {
    hide EnvOk, StoreOk, Accepted, Rewritten, RewriteStore, Eval, InlineExpr, EvalBlock, InlineBlock;
    match orElse {
      case NoElse =>
      case ElseBlock(block) => BlockSame(w, home, fuel, block, env, store);
      case ElseIf(condition, thenBlock, rest) =>
        ExprSame(w, home, fuel, condition, env, store);
        var o := Eval(w.p, home, fuel, condition, env, store);
        if o.Done? {
          NoConditionSame(w, o.store);
          BlockSame(w, home, fuel, thenBlock, env, o.store);
          ElseSame(w, home, fuel, rest, env, o.store);
        }
    }
  }

  // ---- Whole runs ----

  /** A call of a function from outside, on values a store holds. */
  ghost function Run(p: Program, fuel: nat, name: string, arguments: List<Value>, store: Store): Outcome {
    if name !in p.functions || Length(arguments) != Length(p.functions[name].parameters) then Failed
    else
      var f := p.functions[name];
      FromCall(EvalBlock(p, f.home, fuel, f.body, BindEnv(f.parameters, Globals(p, f.home), |store|),
        BindStore(arguments, store)))
  }

  /** Every run of the rewritten program is the run of the original one, up to the code inside closures. */
  lemma InliningPreserves(w: Setting, fuel: nat, name: string, arguments: List<Value>, store: Store)
    requires Accepted(w) && StoreOk(w, store) && ValuesOk(w, arguments)
    ensures Run(Inlined(w), fuel, name, RewriteValues(Rewriter(w), arguments), RewriteStore(Rewriter(w), store))
         == RewriteOutcome(Rewriter(w), Run(w.p, fuel, name, arguments, store))
  {
    hide StoreOk, EnvOk, Rewritten, RewriteStore, EvalBlock, InlineBlock, BindEnv, BindStore, Accepted, FromCall;
    hide Globals, At;
    if name in w.p.functions && Length(arguments) == Length(w.p.functions[name].parameters) {
      EnterFunction(w, fuel, name, arguments, store);
      var f := w.p.functions[name];
      FromCallRewrites(w, EvalBlock(w.p, f.home, fuel, f.body, BindEnv(f.parameters, Globals(w.p, f.home), |store|),
        BindStore(arguments, store)));
    }
  }

  lemma FromCallRewrites(w: Setting, outcome: Outcome)
    ensures FromCall(RewriteOutcome(Rewriter(w), outcome)) == RewriteOutcome(Rewriter(w), FromCall(outcome))
  {
    hide Rewritten, RewriteStore;
  }

  lemma EnterFunction(w: Setting, fuel: nat, name: string, arguments: List<Value>, store: Store)
    requires Accepted(w) && StoreOk(w, store) && ValuesOk(w, arguments) && name in w.p.functions
    ensures var f, g := w.p.functions[name], Inlined(w).functions[name];
      EvalBlock(Inlined(w), g.home, fuel, g.body, BindEnv(g.parameters, Globals(Inlined(w), g.home), |store|),
                BindStore(RewriteValues(Rewriter(w), arguments), RewriteStore(Rewriter(w), store)))
        == RewriteOutcome(Rewriter(w),
             EvalBlock(w.p, f.home, fuel, f.body, BindEnv(f.parameters, Globals(w.p, f.home), |store|),
                       BindStore(arguments, store)))
  {
    var f := w.p.functions[name];
    GlobalsOk(w, f);
    hide StoreOk, EnvOk, Rewritten, RewriteStore, EvalBlock, InlineBlock, BindEnv, BindStore, Accepted, Strip, Globals;
    hide At;
    BindStoreSame(w, arguments, store);
    BindEnvStrips(w, f.home, f.parameters, Globals(w.p, f.home), |store|);
    BlockSame(w, f.home, fuel, f.body, BindEnv(f.parameters, Globals(w.p, f.home), |store|),
      BindStore(arguments, store));
  }

  /** What a function starts from disappears as a whole, and its body was accepted. */
  lemma GlobalsOk(w: Setting, f: Function)
    requires Accepted(w) && f in w.p.functions.Values
    ensures EnvOk(w, f.home, Globals(w.p, f.home))
    ensures Strip(Globals(w.p, f.home), w.cells) == map[] == Globals(Inlined(w), f.home)
    ensures Locals(w, Globals(w.p, f.home)) + NameSet(f.parameters) == NameSet(f.parameters)
    ensures ReportBlock(At(w, f.home), NameSet(f.parameters), f.body) == []
  {
    var name :| name in w.p.functions && w.p.functions[name] == f;
    assert Reportless(w, w.p.functions[name]);
  }

  /** A value without closures. */
  ghost predicate Plain(value: Value)
    decreases value
  {
    match value
    case Tuple(_, items) => PlainAll(items)
    case Callable(_) => false
    case _ => true
  }

  ghost predicate PlainAll(values: List<Value>)
    decreases values
  {
    values.Cons? ==> Plain(values.head) && PlainAll(values.tail)
  }

  lemma {:induction false} PlainStays(w: Setting, value: Value)
    requires Plain(value)
    ensures RewriteValue(Rewriter(w), value) == value && ValueOk(w, value)
    decreases value
  {
    if value.Tuple? {
      PlainAllStay(w, value.items);
    }
  }

  lemma {:induction false} PlainAllStay(w: Setting, values: List<Value>)
    requires PlainAll(values)
    ensures RewriteValues(Rewriter(w), values) == values && ValuesOk(w, values)
    decreases values
  {
    if values.Cons? {
      PlainStays(w, values.head);
      PlainAllStay(w, values.tail);
    }
  }

  /** The constants in their locations, and data. */
  ghost predicate Starting(w: Setting, store: Store) {
    && Accepted(w) && w.cells <= |store|
    && (forall i {:trigger store[i]} :: 0 <= i < |store| ==> Plain(store[i]))
    && (forall home: nat {:trigger Globals(w.p, home)} {:trigger CellsHold(w, home, store)} ::
      CellsHold(w, home, store))
  }

  lemma StartOk(w: Setting, store: Store)
    requires Starting(w, store)
    ensures StoreOk(w, store) && RewriteStore(Rewriter(w), store) == store
  {
    hide CellsHold, Accepted;
    forall i | 0 <= i < |store| ensures RewriteValue(Rewriter(w), store[i]) == store[i] && ValueOk(w, store[i]) {
      PlainStays(w, store[i]);
    }
    assert RewriteStore(Rewriter(w), store) == store;
  }

  /** From a start without closures the two programs do the same and return the same data. */
  lemma SameResults(w: Setting, fuel: nat, name: string, arguments: List<Value>, store: Store)
    requires Starting(w, store) && PlainAll(arguments)
    ensures var before, after := Run(w.p, fuel, name, arguments, store), Run(Inlined(w), fuel, name, arguments, store);
      && after == RewriteOutcome(Rewriter(w), before)
      && (before.Done? <==> after.Done?)
      && (before.Done? && Plain(before.value) ==> after.value == before.value)
  {
    StartOk(w, store);
    PlainAllStay(w, arguments);
    hide StoreOk, Starting, RewriteStore, Rewritten, Run, FromCall;
    InliningPreserves(w, fuel, name, arguments, store);
    var before := Run(w.p, fuel, name, arguments, store);
    if before.Done? && Plain(before.value) {
      PlainStays(w, before.value);
    }
  }
}
