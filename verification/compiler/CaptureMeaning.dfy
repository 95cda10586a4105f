/** A closure needs no more of its environment than the bindings its code uses. */
module CaptureMeaning {
  import opened Syntax
  import opened Evaluator
  import opened Rewriting
  import opened Scopes
  import opened Wrappers

  /** The same program with closures that keep only what they capture. */
  ghost function Lifted(p: Program): Program {
    p.(lifted := true)
  }

  /** The environments give every one of the names the same location, or both none. */
  ghost predicate Agree(names: seq<string>, left: Env, right: Env) {
    forall name {:trigger name in names} :: name in names ==>
      && (name in left <==> name in right)
      && (name in left ==> left[name] == right[name])
  }

  ghost predicate SameRun(before: Outcome, after: Outcome) {
    after == RewriteOutcome(Lifting, before)
  }

  lemma {:induction false} WithoutIs(names: seq<string>, bound: set<string>)
    ensures forall name :: name in Without(names, bound) <==> name in names && name !in bound
  {
    if names != [] {
      WithoutIs(names[1..], bound);
    }
  }

  lemma AgreeParts(left: Env, right: Env, first: seq<string>, second: seq<string>)
    requires Agree(first + second, left, right)
    ensures Agree(first, left, right) && Agree(second, left, right)
  {
    forall name | name in first || name in second ensures name in first + second {}
  }

  /** Environments that agree but for bound names agree on all names once those are bound. */
  lemma {:induction false} AgreeBound(names: seq<string>, bound: List<string>, left: Env, right: Env, next: nat)
    requires Agree(Without(names, NameSet(bound)), left, right)
    ensures Agree(names, BindEnv(bound, left, next), BindEnv(bound, right, next))
  {
    WithoutIs(names, NameSet(bound));
    if bound.Cons? {
      var head, rest := bound.head, NameSet(bound.tail);
      WithoutIs(names, rest);
      AgreeBound(names, bound.tail, left[head := next], right[head := next], next + 1);
    }
  }

  lemma AgreeOne(names: seq<string>, bound: string, left: Env, right: Env, next: nat)
    requires Agree(Without(names, {bound}), left, right)
    ensures Agree(names, left[bound := next], right[bound := next])
  {
    WithoutIs(names, {bound});
  }

  lemma RestrictAgrees(names: seq<string>, env: Env)
    ensures Agree(names, env, Restrict(env, names))
  {}

  lemma AgreeRestricts(names: seq<string>, left: Env, right: Env)
    requires Agree(names, left, right)
    ensures Restrict(left, names) == Restrict(right, names)
  {}

  lemma CalledSame(p: Program, home: nat, callee: string, left: Env, right: Env, store: Store)
    requires Agree([callee], left, right)
    ensures Called(p, home, callee, left, store).None? ==>
        Called(Lifted(p), home, callee, right, RewriteStore(Lifting, store)).None?
    ensures Called(p, home, callee, left, store).Some? ==>
      && var code, called := Called(p, home, callee, left, store).value,
        Called(Lifted(p), home, callee, right, RewriteStore(Lifting, store));
      && called.Some? && called == Some(Code(code.home, code.parameters, code.body, called.value.env))
      && Agree(UsesOf(Closure(code.parameters, code.body)), code.env, called.value.env)
  {
    assert callee in [callee];
    hide UsesOf;
    if callee in left && Called(p, home, callee, left, store).Some? {
      var code := Called(p, home, callee, left, store).value;
      RestrictAgrees(UsesOf(Closure(code.parameters, code.body)), code.env);
    }
  }

  // ---- Runs ----

  lemma {:induction false} ExprSame(p: Program, home: nat, fuel: nat, e: Expr, left: Env, right: Env, store: Store)
    requires !p.lifted && Agree(UsesOf(e), left, right)
    ensures SameRun(Eval(p, home, fuel, e, left, store),
        Eval(Lifted(p), home, fuel, e, right, RewriteStore(Lifting, store)))
    decreases fuel, e, 1
  {
    hide Agree, Rewritten, RewriteStore, Called, Lookup, Allocate, EvalAll, EvalArms, UsesOfAll, UsesOfArms;
    hide UsesOfBlock;
    hide OperateUnary, Settle, OperateBinary, Lifted, NewClosure, EvalBlock, BindEnv, BindStore, Canonical, Globals;
    match e {
      case Constant(_) =>
      case Variable(name) => VariableSame(p, home, fuel, name, left, right, store);
      case Unary(operator, operand) =>
        ExprSame(p, home, fuel, operand, left, right, store);
        var o := Eval(p, home, fuel, operand, left, store);
        if o.Done? {
          UnarySame(p, operator, o.value, o.store);
        }
      case Binary(operator, first, second) =>
        AgreeParts(left, right, UsesOf(first), UsesOf(second));
        ExprSame(p, home, fuel, first, left, right, store);
        var o := Eval(p, home, fuel, first, left, store);
        if o.Done? {
          BinarySame(p, operator, o.value, UNIT, o.store);
          ExprSame(p, home, fuel, second, left, right, o.store);
          var q := Eval(p, home, fuel, second, left, o.store);
          if q.Done? {
            BinarySame(p, operator, o.value, q.value, q.store);
          }
        }
      case Index(receiver, index) =>
        AgreeParts(left, right, UsesOf(receiver), UsesOf(index));
        ExprSame(p, home, fuel, receiver, left, right, store);
        var o := Eval(p, home, fuel, receiver, left, store);
        if o.Done? {
          ExprSame(p, home, fuel, index, left, right, o.store);
          var q := Eval(p, home, fuel, index, left, o.store);
          if q.Done? {
            LookupRewrites(Lifting, o.value, q.value, q.store);
          }
        }
      case Make(tag, elements) =>
        AllSame(p, home, fuel, elements, left, right, store);
        var o := EvalAll(p, home, fuel, elements, left, store);
        if o.Done? {
          AllocateRewrites(Lifting, tag, o.value, o.store);
        }
      case Call(_, _) => CallSame(p, home, fuel, e, left, right, store);
      case Closure(parameters, body) => ClosureSame(p, home, e, left, right, store);
      case Match(value, arms) =>
        AgreeParts(left, right, UsesOf(value), UsesOfArms(arms));
        ExprSame(p, home, fuel, value, left, right, store);
        var o := Eval(p, home, fuel, value, left, store);
        if o.Done? {
          ArmsSame(p, home, fuel, arms, o.value, left, right, o.store);
        }
    }
  }

  lemma UnarySame(p: Program, operator: string, operand: Value, store: Store)
    ensures SameRun(OperateUnary(p, operator, operand, store),
                    OperateUnary(Lifted(p), operator, RewriteValue(Lifting, operand), RewriteStore(Lifting, store)))
  {
    hide Rewritten, RewriteStore, RewriteValue, Respond, See;
    SeeRewrites(Lifting, operand, store);
    RespondRewrites(Lifting, p.operators.unary(operator, See(operand, store)), operand, store);
  }

  lemma BinarySame(p: Program, operator: string, left: Value, right: Value, store: Store)
    ensures SameRun(OperateBinary(p, operator, left, right, store),
                    OperateBinary(Lifted(p), operator, RewriteValue(Lifting, left), RewriteValue(Lifting, right),
                                  RewriteStore(Lifting, store)))
    ensures var before := Settle(p, operator, left, store);
      var after := Settle(Lifted(p), operator, RewriteValue(Lifting, left), RewriteStore(Lifting, store));
      && (before.Some? <==> after.Some?)
      && (before.Some? ==> SameRun(before.value, after.value))
  {
    hide Rewritten, RewriteStore, RewriteValue, Respond, See;
    SeeRewrites(Lifting, left, store);
    SeeRewrites(Lifting, right, store);
    var settled := p.operators.settle(operator, See(left, store));
    if settled.Some? {
      RespondRewrites(Lifting, settled.value, left, store);
    }
    RespondRewrites(Lifting, p.operators.binary(operator, See(left, store), See(right, store)), right, store);
  }

  lemma NoConditionSame(store: Store)
    ensures SameRun(NoCondition(store), NoCondition(RewriteStore(Lifting, store)))
  {
    RespondRewrites(Lifting, Answer(Raises("TypeError"), true), UNIT, store);
    hide Rewritten, RewriteStore, Respond;
  }

  lemma VariableSame(p: Program, home: nat, fuel: nat, name: string, left: Env, right: Env, store: Store)
    requires Agree([name], left, right)
    ensures SameRun(Eval(p, home, fuel, Variable(name), left, store),
                    Eval(Lifted(p), home, fuel, Variable(name), right, RewriteStore(Lifting, store)))
  {
    assert name in [name];
    if name in left {
      ReadRewrites(Lifting, left[name], store);
    }
  }

  lemma ClosureSame(p: Program, home: nat, e: Expr, left: Env, right: Env, store: Store)
    requires !p.lifted && e.Closure? && Agree(UsesOf(e), left, right)
    ensures SameRun(Done(NewClosure(p, home, e.parameters, e.body, left), store),
                    Done(NewClosure(Lifted(p), home, e.parameters, e.body, right), RewriteStore(Lifting, store)))
  {
    hide UsesOf, Agree, RewriteStore;
    assert e == Closure(e.parameters, e.body);
    AgreeRestricts(UsesOf(e), left, right);
  }

  lemma {:induction false} CallSame(p: Program, home: nat, fuel: nat, e: Expr, left: Env, right: Env, store: Store)
    requires !p.lifted && e.Call? && Agree(UsesOf(e), left, right)
    ensures SameRun(Eval(p, home, fuel, e, left, store),
        Eval(Lifted(p), home, fuel, e, right, RewriteStore(Lifting, store)))
    decreases fuel, e, 0
  {
    hide Agree, Rewritten, RewriteStore, Called, EvalAll, EvalBlock, BindEnv, BindStore, UsesOfAll, UsesOfBlock, Lifted;
    hide Canonical, Globals, NewClosure;
    AgreeParts(left, right, [e.callee], UsesOfAll(e.arguments));
    AllSame(p, home, fuel, e.arguments, left, right, store);
    var o := EvalAll(p, home, fuel, e.arguments, left, store);
    if o.Done? && o.value.Tuple? {
      CalledSame(p, home, e.callee, left, right, o.store);
      var called := Called(p, home, e.callee, left, o.store);
      if called.Some? && Length(o.value.items) == Length(called.value.parameters) && fuel > 0 {
        var code := called.value;
        var env := Called(Lifted(p), home, e.callee, right, RewriteStore(Lifting, o.store)).value.env;
        EnterSame(p, code.home, fuel - 1, code.parameters, code.body, code.env, env, o.value.items, o.store);
      }
    }
  }

  lemma {:induction false} EnterSame(p: Program, home: nat, fuel: nat, parameters: List<string>, body: List<Stmt>,
                                     left: Env, right: Env, items: List<Value>, store: Store)
    requires !p.lifted && Agree(UsesOf(Closure(parameters, body)), left, right)
    ensures SameRun(EvalBlock(p, home, fuel, body, BindEnv(parameters, left, |store|), BindStore(items, store)),
                    EvalBlock(Lifted(p), home, fuel, body, BindEnv(parameters, right, |store|),
                              BindStore(RewriteValues(Lifting, items), RewriteStore(Lifting, store))))
    decreases fuel, body, 2
  {
    hide Agree, RewriteStore, EvalBlock, BindEnv, BindStore, UsesOfBlock, Lifted;
    BindStoreRewrites(Lifting, items, store);
    AgreeBound(UsesOfBlock(body), parameters, left, right, |store|);
    BlockSame(p, home, fuel, body, BindEnv(parameters, left, |store|), BindEnv(parameters, right, |store|),
      BindStore(items, store));
  }

  lemma {:induction false} AllSame(p: Program, home: nat, fuel: nat, es: List<Expr>, left: Env, right: Env,
                                   store: Store)
    requires !p.lifted && Agree(UsesOfAll(es), left, right)
    ensures SameRun(EvalAll(p, home, fuel, es, left, store),
        EvalAll(Lifted(p), home, fuel, es, right, RewriteStore(Lifting, store)))
    decreases fuel, es, 1
  {
    hide Agree, Rewritten, RewriteStore, Eval, UsesOf, Lifted;
    if es.Cons? {
      AgreeParts(left, right, UsesOf(es.head), UsesOfAll(es.tail));
      ExprSame(p, home, fuel, es.head, left, right, store);
      var o := Eval(p, home, fuel, es.head, left, store);
      if o.Done? {
        AllSame(p, home, fuel, es.tail, left, right, o.store);
        var q := EvalAll(p, home, fuel, es.tail, left, o.store);
        if q.Done? && q.value.Tuple? {
          assert RewriteValues(Lifting, Cons(o.value, q.value.items))
              == Cons(RewriteValue(Lifting, o.value), RewriteValues(Lifting, q.value.items));
        }
      }
    }
  }

  lemma {:induction false} ArmsSame(p: Program, home: nat, fuel: nat, arms: List<Arm>, value: Value, left: Env,
                                    right: Env, store: Store)
    requires !p.lifted && Agree(UsesOfArms(arms), left, right)
    ensures SameRun(EvalArms(p, home, fuel, arms, value, left, store),
                    EvalArms(Lifted(p), home, fuel, arms, RewriteValue(Lifting, value), right,
                      RewriteStore(Lifting, store)))
    decreases fuel, arms, 1
  {
    hide Agree, Rewritten, RewriteStore, RewriteValue, Matched, BindEnv, BindStore, EvalArmBody, UsesOfArmBody, Lifted;
    if arms.Cons? {
      var bound := Bindings(arms.head.pattern);
      AgreeParts(left, right, Without(UsesOfArmBody(arms.head.body), NameSet(bound)), UsesOfArms(arms.tail));
      MatchedRewrites(Lifting, arms.head.pattern, value, store);
      var payload := Matched(arms.head.pattern, value, store);
      if payload.None? {
        ArmsSame(p, home, fuel, arms.tail, value, left, right, store);
      } else {
        BindStoreRewrites(Lifting, payload.value, store);
        AgreeBound(UsesOfArmBody(arms.head.body), bound, left, right, |store|);
        ArmBodySame(p, home, fuel, arms.head.body, BindEnv(bound, left, |store|), BindEnv(bound, right, |store|),
          BindStore(payload.value, store));
      }
    }
  }

  lemma {:induction false} ArmBodySame(p: Program, home: nat, fuel: nat, body: ArmBody, left: Env, right: Env,
                                       store: Store)
    requires !p.lifted && Agree(UsesOfArmBody(body), left, right)
    ensures SameRun(EvalArmBody(p, home, fuel, body, left, store),
        EvalArmBody(Lifted(p), home, fuel, body, right, RewriteStore(Lifting, store)))
    decreases fuel, body, 1
  {
    hide Agree, Rewritten, RewriteStore, Eval, EvalBlock, UsesOf, UsesOfBlock, Lifted;
    match body {
      case Value(value) => ExprSame(p, home, fuel, value, left, right, store);
      case Body(block) => BlockSame(p, home, fuel, block, left, right, store);
    }
  }

  lemma {:induction false} BlockSame(p: Program, home: nat, fuel: nat, block: List<Stmt>, left: Env, right: Env,
                                     store: Store)
    requires !p.lifted && Agree(UsesOfBlock(block), left, right)
    ensures SameRun(EvalBlock(p, home, fuel, block, left, store),
        EvalBlock(Lifted(p), home, fuel, block, right, RewriteStore(Lifting, store)))
    decreases fuel, block, 1
  {
    hide Agree, Rewritten, RewriteStore, Eval, EvalStmt, UsesOf, UsesOfStmt, Lifted;
    if block.Nil? {
    } else if block.head.Let? {
      var name := block.head.name;
      AgreeParts(left, right, UsesOf(block.head.value), Without(UsesOfBlock(block.tail), {name}));
      ExprSame(p, home, fuel, block.head.value, left, right, store);
      var o := Eval(p, home, fuel, block.head.value, left, store);
      if o.Done? {
        AgreeOne(UsesOfBlock(block.tail), name, left, right, |o.store|);
        PushRewrites(Lifting, o.value, o.store);
        BlockSame(p, home, fuel, block.tail, left[name := |o.store|], right[name := |o.store|], o.store + [o.value]);
      }
    } else {
      AgreeParts(left, right, UsesOfStmt(block.head), UsesOfBlock(block.tail));
      StmtSame(p, home, fuel, block.head, left, right, store);
      var o := EvalStmt(p, home, fuel, block.head, left, store);
      if o.Done? {
        BlockSame(p, home, fuel, block.tail, left, right, o.store);
      }
    }
  }

  lemma {:induction false} StmtSame(p: Program, home: nat, fuel: nat, s: Stmt, left: Env, right: Env, store: Store)
    requires !p.lifted && Agree(UsesOfStmt(s), left, right)
    ensures SameRun(EvalStmt(p, home, fuel, s, left, store),
        EvalStmt(Lifted(p), home, fuel, s, right, RewriteStore(Lifting, store)))
    decreases fuel, s, 1
  {
    hide Agree, Rewritten, RewriteStore, Eval, EvalBlock, EvalElse, EvalRounds, UsesOf, UsesOfBlock, UsesOfElse, Lifted;
    match s {
      case Let(_, _) =>
      case Assign(_, _) => AssignSame(p, home, fuel, s, left, right, store);
      case Return(None) =>
      case Return(Some(value)) => ExprSame(p, home, fuel, value, left, right, store);
      case Block(block) => BlockSame(p, home, fuel, block, left, right, store);
      case If(condition, thenBlock, orElse) =>
        AgreeParts(left, right, UsesOf(condition) + UsesOfBlock(thenBlock), UsesOfElse(orElse));
        AgreeParts(left, right, UsesOf(condition), UsesOfBlock(thenBlock));
        ExprSame(p, home, fuel, condition, left, right, store);
        var o := Eval(p, home, fuel, condition, left, store);
        if o.Done? {
          NoConditionSame(o.store);
          BlockSame(p, home, fuel, thenBlock, left, right, o.store);
          ElseSame(p, home, fuel, orElse, left, right, o.store);
        }
      case While(_, _) => WhileSame(p, home, fuel, s, left, right, store);
      case For(_, _, _) => ForSame(p, home, fuel, s, left, right, store);
      case Break =>
      case Continue =>
      case Do(expression) => ExprSame(p, home, fuel, expression, left, right, store);
    }
  }

  lemma {:induction false} AssignSame(p: Program, home: nat, fuel: nat, s: Stmt, left: Env, right: Env, store: Store)
    requires !p.lifted && s.Assign? && Agree(UsesOfStmt(s), left, right)
    ensures SameRun(EvalStmt(p, home, fuel, s, left, store),
        EvalStmt(Lifted(p), home, fuel, s, right, RewriteStore(Lifting, store)))
    decreases fuel, s, 0
  {
    hide Agree, Rewritten, RewriteStore, Eval, UsesOf, Lifted, Update, Write;
    match s.target {
      case Name(name) =>
        AgreeParts(left, right, [name], UsesOf(s.value));
        AgreeAt(name, left, right);
        ExprSame(p, home, fuel, s.value, left, right, store);
        var o := Eval(p, home, fuel, s.value, left, store);
        if o.Done? && name in left {
          WriteRewrites(Lifting, left[name], o.value, o.store);
        }
      case Element(receiver, index) =>
        AgreeParts(left, right, UsesOf(receiver) + UsesOf(index), UsesOf(s.value));
        AgreeParts(left, right, UsesOf(receiver), UsesOf(index));
        ExprSame(p, home, fuel, receiver, left, right, store);
        var o := Eval(p, home, fuel, receiver, left, store);
        if o.Done? {
          ExprSame(p, home, fuel, index, left, right, o.store);
          var q := Eval(p, home, fuel, index, left, o.store);
          if q.Done? {
            ExprSame(p, home, fuel, s.value, left, right, q.store);
            var v := Eval(p, home, fuel, s.value, left, q.store);
            if v.Done? {
              UpdateRewrites(Lifting, o.value, q.value, v.value, v.store);
            }
          }
        }
    }
  }

  lemma AgreeAt(name: string, left: Env, right: Env)
    requires Agree([name], left, right)
    ensures name in left <==> name in right
    ensures name in left ==> left[name] == right[name]
  {
    assert name in [name];
  }

  lemma {:induction false} WhileSame(p: Program, home: nat, fuel: nat, s: Stmt, left: Env, right: Env, store: Store)
    requires !p.lifted && s.While? && Agree(UsesOfStmt(s), left, right)
    ensures SameRun(EvalStmt(p, home, fuel, s, left, store),
        EvalStmt(Lifted(p), home, fuel, s, right, RewriteStore(Lifting, store)))
    decreases fuel, s, 0
  {
    hide Agree, Rewritten, RewriteStore, Eval, EvalBlock, UsesOf, UsesOfBlock, Lifted;
    AgreeParts(left, right, UsesOf(s.condition), UsesOfBlock(s.body));
    ExprSame(p, home, fuel, s.condition, left, right, store);
    var o := Eval(p, home, fuel, s.condition, left, store);
    if o.Done? {
      NoConditionSame(o.store);
      BlockSame(p, home, fuel, s.body, left, right, o.store);
      var next := NextRound(EvalBlock(p, home, fuel, s.body, left, o.store));
      if next.Some? && fuel > 0 {
        StmtSame(p, home, fuel - 1, s, left, right, next.value);
      }
    }
  }

  lemma {:induction false} ForSame(p: Program, home: nat, fuel: nat, s: Stmt, left: Env, right: Env, store: Store)
    requires !p.lifted && s.For? && Agree(UsesOfStmt(s), left, right)
    ensures SameRun(EvalStmt(p, home, fuel, s, left, store),
        EvalStmt(Lifted(p), home, fuel, s, right, RewriteStore(Lifting, store)))
    decreases fuel, s, 0
  {
    hide Agree, Rewritten, RewriteStore, Eval, EvalBlock, EvalRounds, Behind, UsesOf, UsesOfBlock, Lifted;
    AgreeParts(left, right, UsesOf(s.iterable), Without(UsesOfBlock(s.body), {s.binding}));
    ExprSame(p, home, fuel, s.iterable, left, right, store);
    var o := Eval(p, home, fuel, s.iterable, left, store);
    if o.Done? {
      BehindRewrites(Lifting, o.value, o.store);
      var behind := Behind(o.value, o.store);
      if behind.Some? {
        RoundsSame(p, home, fuel, s.binding, behind.value.items, s.body, left, right, o.store);
      }
    }
  }

  lemma {:induction false} RoundsSame(p: Program, home: nat, fuel: nat, binding: string, items: List<Value>,
                                      body: List<Stmt>, left: Env, right: Env, store: Store)
    requires !p.lifted && Agree(Without(UsesOfBlock(body), {binding}), left, right)
    ensures SameRun(EvalRounds(p, home, fuel, binding, items, body, left, store),
                    EvalRounds(Lifted(p), home, fuel, binding, RewriteValues(Lifting, items), body, right,
                      RewriteStore(Lifting, store)))
    decreases fuel, body, 2, items
  {
    hide Agree, Rewritten, RewriteStore, EvalBlock, UsesOfBlock, Lifted;
    if items.Cons? {
      AgreeOne(UsesOfBlock(body), binding, left, right, |store|);
      PushRewrites(Lifting, items.head, store);
      BlockSame(p, home, fuel, body, left[binding := |store|], right[binding := |store|], store + [items.head]);
      var next := NextRound(EvalBlock(p, home, fuel, body, left[binding := |store|], store + [items.head]));
      if next.Some? {
        RoundsSame(p, home, fuel, binding, items.tail, body, left, right, next.value);
      }
    }
  }

  lemma {:induction false} ElseSame(p: Program, home: nat, fuel: nat, orElse: Else, left: Env, right: Env, store: Store)
    requires !p.lifted && Agree(UsesOfElse(orElse), left, right)
    ensures SameRun(EvalElse(p, home, fuel, orElse, left, store),
        EvalElse(Lifted(p), home, fuel, orElse, right, RewriteStore(Lifting, store)))
    decreases fuel, orElse, 1
  {
    hide Agree, Rewritten, RewriteStore, Eval, EvalBlock, UsesOf, UsesOfBlock, Lifted;
    match orElse {
      case NoElse =>
      case ElseBlock(block) => BlockSame(p, home, fuel, block, left, right, store);
      case ElseIf(condition, thenBlock, rest) =>
        AgreeParts(left, right, UsesOf(condition) + UsesOfBlock(thenBlock), UsesOfElse(rest));
        AgreeParts(left, right, UsesOf(condition), UsesOfBlock(thenBlock));
        ExprSame(p, home, fuel, condition, left, right, store);
        var o := Eval(p, home, fuel, condition, left, store);
        if o.Done? {
          NoConditionSame(o.store);
          BlockSame(p, home, fuel, thenBlock, left, right, o.store);
          ElseSame(p, home, fuel, rest, left, right, o.store);
        }
    }
  }

  /**
    * A closure called with its captures alone does what it does with everything around it. `scopes` are the scopes
    * around the closure, and `env` gives their names their locations.
    */
  lemma CapturesSuffice(p: Program, home: nat, fuel: nat, e: Expr, scopes: seq<Scope>, captures: seq<Capture>, env: Env,
                        arguments: List<Value>, store: Store)
    requires !p.lifted && e.Closure? && captures == NoteAll([], scopes, UsesOf(e))
    requires forall name :: name in env <==> Resolve(scopes, name).Some?
    ensures var captured := map name | name in env && Captured(captures, name) :: env[name];
      SameRun(EvalBlock(p, home, fuel, e.body, BindEnv(e.parameters, env, |store|), BindStore(arguments, store)),
              EvalBlock(Lifted(p), home, fuel, e.body, BindEnv(e.parameters, captured, |store|),
                        BindStore(RewriteValues(Lifting, arguments), RewriteStore(Lifting, store))))
  {
    NoteAllExact(scopes, UsesOf(e));
    CapturesRestrict(captures, scopes, UsesOf(e), env);
    hide UsesOf, EvalBlock, BindEnv, BindStore, RewriteStore, Lifted, NoteAll, ExactCaptures;
    assert e == Closure(e.parameters, e.body);
    RestrictAgrees(UsesOf(e), env);
    EnterSame(p, home, fuel, e.parameters, e.body, env, Restrict(env, UsesOf(e)), arguments, store);
  }
}
