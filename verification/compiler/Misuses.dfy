/** What a pass says about names is what the source text says: its free uses, one by one, from left to right. */
module Misuses {
  import opened Syntax
  import opened Evaluator
  import opened Substitution
  import opened Scopes
  import opened Occurrences

  /** A constant that is private to another library is read, or a constant is assigned. */
  function Misuse(c: Constants, use: Token): seq<Diagnostic> {
    match use
    case Read(name) => if name in c.hidden && name !in c.visible then [PrivateConstant(name)] else []
    case Assigned(name) => if name in c.visible then [AssignedConstant(name)] else []
    case _ => []
  }

  function MisusesOf(c: Constants, uses: seq<Token>): seq<Diagnostic> {
    if uses == [] then [] else Misuse(c, uses[0]) + MisusesOf(c, uses[1..])
  }

  function NamesOf(uses: seq<Token>): seq<string>
    requires forall use | use in uses :: !use.Enter? && !use.Leave?
  {
    if uses == [] then [] else [uses[0].name] + NamesOf(uses[1..])
  }

  lemma {:induction false} MisusesAppend(c: Constants, first: seq<Token>, second: seq<Token>)
    ensures MisusesOf(c, first + second) == MisusesOf(c, first) + MisusesOf(c, second)
  {
    hide Misuse;
    if first == [] {
      assert first + second == second;
    } else {
      assert (first + second)[1..] == first[1..] + second;
      MisusesAppend(c, first[1..], second);
    }
  }

  lemma {:induction false} FreeAreNames(tokens: seq<Token>, scopes: seq<set<string>>)
    ensures forall use | use in Free(tokens, scopes) :: !use.Enter? && !use.Leave?
  {
    if tokens != [] {
      match tokens[0] {
        case Enter => FreeAreNames(tokens[1..], scopes + [{}]);
        case Leave => FreeAreNames(tokens[1..], Popped(scopes));
        case Bind(name) => FreeAreNames(tokens[1..], Added(scopes, {name}));
        case use => FreeAreNames(tokens[1..], scopes);
      }
    }
  }

  // ---- Pieces of text ----

  /** What a scan finds. */
  datatype Findings = Findings(misuses: seq<Diagnostic>, names: seq<string>)

  function Found(c: Constants, tokens: seq<Token>, scopes: seq<set<string>>): Findings {
    FreeAreNames(tokens, scopes);
    Findings(MisusesOf(c, Free(tokens, scopes)), NamesOf(Free(tokens, scopes)))
  }

  /** Before whatever follows, a scan of the piece leads from `scopes` to `after` and finds that much. */
  ghost predicate Scans(c: Constants, piece: seq<Token>, scopes: seq<set<string>>, after: seq<set<string>>,
                        misuses: seq<Diagnostic>, names: seq<string>)
  {
    forall rest: seq<Token> ::
      Found(c, piece + rest, scopes)
        == Findings(misuses + Found(c, rest, after).misuses, names + Found(c, rest, after).names)
  }

  lemma ScansNothing(c: Constants, scopes: seq<set<string>>)
    ensures Scans(c, [], scopes, scopes, [], [])
  {
    forall rest: seq<Token>
      ensures Found(c, [] + rest, scopes)
        == Findings([] + Found(c, rest, scopes).misuses, [] + Found(c, rest, scopes).names)
    {
      assert [] + rest == rest;
    }
  }

  lemma ScansBoth(c: Constants, first: seq<Token>, second: seq<Token>, scopes: seq<set<string>>,
                  between: seq<set<string>>, after: seq<set<string>>, misuses: seq<Diagnostic>,
                  moreMisuses: seq<Diagnostic>, names: seq<string>, moreNames: seq<string>)
    requires Scans(c, first, scopes, between, misuses, names)
    requires Scans(c, second, between, after, moreMisuses, moreNames)
    ensures Scans(c, first + second, scopes, after, misuses + moreMisuses, names + moreNames)
  {
    hide Found;
    forall rest: seq<Token>
      ensures Found(c, first + second + rest, scopes)
        == Findings(misuses + moreMisuses + Found(c, rest, after).misuses,
                    names + moreNames + Found(c, rest, after).names)
    {
      assert first + second + rest == first + (second + rest);
      var found, later := Found(c, second + rest, between), Found(c, rest, after);
      assert misuses + (moreMisuses + later.misuses) == misuses + moreMisuses + later.misuses;
      assert names + (moreNames + later.names) == names + moreNames + later.names;
    }
  }

  lemma FirstToken(token: Token, rest: seq<Token>)
    ensures ([token] + rest)[0] == token && ([token] + rest)[1..] == rest
  {}

  lemma ScansEnter(c: Constants, scopes: seq<set<string>>)
    ensures Scans(c, [Enter], scopes, scopes + [{}], [], [])
  {
    forall rest: seq<Token>
      ensures Found(c, [Enter] + rest, scopes)
        == Findings([] + Found(c, rest, scopes + [{}]).misuses, [] + Found(c, rest, scopes + [{}]).names)
    {
      FirstToken(Enter, rest);
    }
  }

  lemma ScansLeave(c: Constants, scopes: seq<set<string>>)
    ensures Scans(c, [Leave], scopes, Popped(scopes), [], [])
  {
    forall rest: seq<Token>
      ensures Found(c, [Leave] + rest, scopes)
        == Findings([] + Found(c, rest, Popped(scopes)).misuses, [] + Found(c, rest, Popped(scopes)).names)
    {
      FirstToken(Leave, rest);
    }
  }

  lemma ScansBind(c: Constants, scopes: seq<set<string>>, name: string)
    ensures Scans(c, [Bind(name)], scopes, Added(scopes, {name}), [], [])
  {
    var after := Added(scopes, {name});
    forall rest: seq<Token>
      ensures Found(c, [Bind(name)] + rest, scopes)
        == Findings([] + Found(c, rest, after).misuses, [] + Found(c, rest, after).names)
    {
      FirstToken(Bind(name), rest);
    }
  }

  lemma UseFirst(scopes: seq<set<string>>, use: Token, rest: seq<Token>)
    requires use.Read? || use.Called? || use.Assigned?
    ensures Free([use] + rest, scopes) == (if use.name in Union(scopes) then [] else [use]) + Free(rest, scopes)
  {
    FirstToken(use, rest);
  }

  lemma FoundFirst(c: Constants, use: Token, later: seq<Token>)
    requires use.Read? || use.Called? || use.Assigned?
    requires forall other | other in later :: !other.Enter? && !other.Leave?
    ensures MisusesOf(c, [use] + later) == Misuse(c, use) + MisusesOf(c, later)
    ensures NamesOf([use] + later) == [use.name] + NamesOf(later)
  {
    FirstToken(use, later);
  }

  lemma WithoutOne(name: string, bound: set<string>)
    ensures Without([name], bound) == if name in bound then [] else [name]
  {
    assert [name][1..] == [];
  }

  /** A use is found unless a scope binds it. */
  lemma ScansUse(c: Constants, scopes: seq<set<string>>, use: Token)
    requires use.Read? || use.Called? || use.Assigned?
    ensures Scans(c, [use], scopes, scopes, if use.name in Union(scopes) then [] else Misuse(c, use),
                  Without([use.name], Union(scopes)))
  {
    hide Free, MisusesOf, NamesOf, Without, Misuse, Union;
    var misuses := if use.name in Union(scopes) then [] else Misuse(c, use);
    WithoutOne(use.name, Union(scopes));
    forall rest: seq<Token>
      ensures Found(c, [use] + rest, scopes)
        == Findings(misuses + Found(c, rest, scopes).misuses,
                    Without([use.name], Union(scopes)) + Found(c, rest, scopes).names)
    {
      UseFirst(scopes, use, rest);
      FreeAreNames(rest, scopes);
      var later := Free(rest, scopes);
      FoundFirst(c, use, later);
      assert [] + later == later && [] + MisusesOf(c, later) == MisusesOf(c, later);
      assert [] + NamesOf(later) == NamesOf(later);
    }
  }

  // ---- Scopes ----

  lemma {:induction false} ScansBinds(c: Constants, scopes: seq<set<string>>, names: List<string>)
    requires scopes != []
    ensures Scans(c, Binds(names), scopes, Added(scopes, NameSet(names)), [], [])
    decreases names
  {
    hide Scans;
    NothingMore<Diagnostic>([]);
    NothingMore<string>([]);
    if names.Nil? {
      AddedNothing(scopes);
      ScansNothing(c, scopes);
    } else {
      var between := Added(scopes, {names.head});
      ScansBind(c, scopes, names.head);
      ScansBinds(c, between, names.tail);
      AddedTwice(scopes, {names.head}, NameSet(names.tail));
      ScansBoth(c, [Bind(names.head)], Binds(names.tail), scopes, between, Added(between, NameSet(names.tail)),
        [], [], [], []);
    }
  }

  lemma NothingMore<T>(items: seq<T>)
    ensures [] + items == items && items + [] == items
  {}

  lemma AddedNothing(scopes: seq<set<string>>)
    requires scopes != []
    ensures Added(scopes, {}) == scopes
  {
    assert scopes[|scopes| - 1] + {} == scopes[|scopes| - 1];
  }

  lemma AddedTwice(scopes: seq<set<string>>, first: set<string>, second: set<string>)
    ensures Added(Added(scopes, first), second) == Added(scopes, first + second)
  {
    if scopes != [] {
      var last := scopes[|scopes| - 1];
      assert last + first + second == last + (first + second);
    }
  }

  lemma AddedUnion(scopes: seq<set<string>>, names: set<string>)
    ensures Added(scopes, names) != [] && Union(Added(scopes, names)) == Union(scopes) + names
  {
    if scopes == [] {
      assert [names][..0] == [];
    } else {
      var last := |scopes| - 1;
      UnionPush(scopes[..last], scopes[last] + names);
      assert scopes == scopes[..last] + [scopes[last]];
      UnionPush(scopes[..last], scopes[last]);
    }
  }

  lemma Inner(scopes: seq<set<string>>, names: set<string>, more: set<string>)
    ensures Added(scopes + [{}], names) == scopes + [names] && Union(scopes + [names]) == Union(scopes) + names
    ensures Popped(Added(scopes + [names], more)) == scopes
  {
    UnionPush(scopes, names);
    assert {} + names == names;
  }

  /** A scope with names of its own around a piece whose further names end with it. */
  lemma ScansScope(c: Constants, scopes: seq<set<string>>, names: List<string>, piece: seq<Token>, more: set<string>,
                   misuses: seq<Diagnostic>, found: seq<string>)
    requires var inner := scopes + [NameSet(names)]; Scans(c, piece, inner, Added(inner, more), misuses, found)
    ensures Scans(c, [Enter] + Binds(names) + piece + [Leave], scopes, scopes, misuses, found)
  {
    hide Scans;
    var inner := scopes + [NameSet(names)];
    NothingMore<Diagnostic>([]);
    NothingMore<string>([]);
    Inner(scopes, NameSet(names), more);
    ScansEnter(c, scopes);
    ScansBinds(c, scopes + [{}], names);
    ScansBoth(c, [Enter], Binds(names), scopes, scopes + [{}], inner, [], [], [], []);
    ScansBoth(c, [Enter] + Binds(names), piece, scopes, inner, Added(inner, more), [], misuses, [], found);
    ScansLeave(c, Added(inner, more));
    ScansBoth(c, [Enter] + Binds(names) + piece, [Leave], scopes, Added(inner, more), scopes, [] + misuses, [],
      [] + found, []);
    assert [] + misuses + [] == misuses && [] + found + [] == found;
  }

  // ---- Expressions and statements ----

  /** A piece that binds nothing for what follows: what it uses, less what is bound around it, and its misuses. */
  ghost predicate Says(c: Constants, piece: seq<Token>, scopes: seq<set<string>>, misuses: seq<Diagnostic>,
                       uses: seq<string>)
  {
    Scans(c, piece, scopes, scopes, misuses, Without(uses, Union(scopes)))
  }

  lemma SaysNothing(c: Constants, scopes: seq<set<string>>)
    ensures Says(c, [], scopes, [], [])
  {
    hide Scans;
    ScansNothing(c, scopes);
  }

  lemma SaysInTurn(c: Constants, first: seq<Token>, second: seq<Token>, scopes: seq<set<string>>,
                   misuses: seq<Diagnostic>, more: seq<Diagnostic>, uses: seq<string>, moreUses: seq<string>)
    requires Says(c, first, scopes, misuses, uses) && Says(c, second, scopes, more, moreUses)
    ensures Says(c, first + second, scopes, misuses + more, uses + moreUses)
  {
    hide Scans, Union;
    WithoutAppends(uses, moreUses, Union(scopes));
    ScansBoth(c, first, second, scopes, scopes, scopes, misuses, more, Without(uses, Union(scopes)),
      Without(moreUses, Union(scopes)));
  }

  lemma SaysUse(c: Constants, scopes: seq<set<string>>, use: Token)
    requires use.Read? || use.Called? || use.Assigned?
    ensures Says(c, [use], scopes, if use.name in Union(scopes) then [] else Misuse(c, use), [use.name])
  {
    hide Scans, Union, Misuse;
    ScansUse(c, scopes, use);
  }

  lemma SaysThree(c: Constants, first: seq<Token>, second: seq<Token>, third: seq<Token>, scopes: seq<set<string>>,
                  misuses: seq<Diagnostic>, more: seq<Diagnostic>, most: seq<Diagnostic>, uses: seq<string>,
                  moreUses: seq<string>, mostUses: seq<string>)
    requires Says(c, first, scopes, misuses, uses) && Says(c, second, scopes, more, moreUses)
    requires Says(c, third, scopes, most, mostUses)
    ensures Says(c, first + second + third, scopes, misuses + more + most, uses + moreUses + mostUses)
  {
    hide Says;
    SaysInTurn(c, first, second, scopes, misuses, more, uses, moreUses);
    SaysInTurn(c, first + second, third, scopes, misuses + more, most, uses + moreUses, mostUses);
  }

  /** A scope around a piece that binds `more` names for what follows in it. */
  lemma SaysScope(c: Constants, scopes: seq<set<string>>, names: List<string>, piece: seq<Token>, more: set<string>,
                  misuses: seq<Diagnostic>, uses: seq<string>)
    requires var inner := scopes + [NameSet(names)];
      Scans(c, piece, inner, Added(inner, more), misuses, Without(uses, Union(scopes) + NameSet(names)))
    ensures Says(c, [Enter] + Binds(names) + piece + [Leave], scopes, misuses, Without(uses, NameSet(names)))
  {
    hide Scans, Union, Added;
    ScansScope(c, scopes, names, piece, more, misuses, Without(uses, Union(scopes) + NameSet(names)));
    WithoutTwice(uses, NameSet(names), Union(scopes));
    assert NameSet(names) + Union(scopes) == Union(scopes) + NameSet(names);
  }

  /** The names that statements bind for the statements after them. */
  function Lets(block: List<Stmt>): set<string> {
    if block.Nil? then {} else Declared(block.head) + Lets(block.tail)
  }


  lemma {:induction false} ExprSays(c: Constants, e: Expr, scopes: seq<set<string>>)
    ensures Says(c, Source(e), scopes, ReportExpr(c, Union(scopes), e), UsesOf(e))
    decreases e, 1
  {
    hide Says, Union, SourceOfAll, SourceOfArms, SourceOfFunction, ReportAll, ReportArms, ReportBlock, UsesOfAll;
    hide UsesOfArms, UsesOfBlock;
    match e {
      case Constant(_) => SaysNothing(c, scopes);
      case Variable(name) => SaysUse(c, scopes, Read(name));
      case Unary(_, operand) => ExprSays(c, operand, scopes);
      case Binary(_, left, right) => BothSay(c, e, left, right, scopes);
      case Index(receiver, index) => BothSay(c, e, receiver, index, scopes);
      case Make(_, elements) => AllSay(c, elements, scopes);
      case Call(callee, arguments) => CallSays(c, callee, arguments, scopes);
      case Closure(parameters, body) => FunctionSays(c, parameters, body, scopes);
      case Match(value, arms) =>
        ExprSays(c, value, scopes);
        ArmsSay(c, arms, scopes);
        SaysInTurn(c, Source(value), SourceOfArms(arms), scopes, ReportExpr(c, Union(scopes), value),
          ReportArms(c, Union(scopes), arms), UsesOf(value), UsesOfArms(arms));
    }
  }

  lemma {:induction false} BothSay(c: Constants, whole: Expr, first: Expr, second: Expr, scopes: seq<set<string>>)
    requires first < whole && second < whole
    ensures Says(c, Source(first) + Source(second), scopes,
                 ReportExpr(c, Union(scopes), first) + ReportExpr(c, Union(scopes), second),
                 UsesOf(first) + UsesOf(second))
    decreases whole, 0
  {
    ExprSays(c, first, scopes);
    ExprSays(c, second, scopes);
    hide *;
    SaysInTurn(c, Source(first), Source(second), scopes, ReportExpr(c, Union(scopes), first),
      ReportExpr(c, Union(scopes), second), UsesOf(first), UsesOf(second));
  }

  lemma {:induction false} AllSay(c: Constants, es: List<Expr>, scopes: seq<set<string>>)
    ensures Says(c, SourceOfAll(es), scopes, ReportAll(c, Union(scopes), es), UsesOfAll(es))
    decreases es, 0
  {
    hide Says, Union, Source, ReportExpr, UsesOf;
    if es.Nil? {
      SaysNothing(c, scopes);
    } else {
      ExprSays(c, es.head, scopes);
      AllSay(c, es.tail, scopes);
      SaysInTurn(c, Source(es.head), SourceOfAll(es.tail), scopes, ReportExpr(c, Union(scopes), es.head),
        ReportAll(c, Union(scopes), es.tail), UsesOf(es.head), UsesOfAll(es.tail));
    }
  }

  lemma {:induction false} CallSays(c: Constants, callee: string, arguments: List<Expr>, scopes: seq<set<string>>)
    ensures Says(c, [Called(callee)] + SourceOfAll(arguments), scopes, ReportAll(c, Union(scopes), arguments),
                 [callee] + UsesOfAll(arguments))
    decreases arguments, 1
  {
    hide Says, Union, SourceOfAll, ReportAll, UsesOfAll;
    var misuses := ReportAll(c, Union(scopes), arguments);
    SaysUse(c, scopes, Called(callee));
    AllSay(c, arguments, scopes);
    SaysInTurn(c, [Called(callee)], SourceOfAll(arguments), scopes, [], misuses, [callee], UsesOfAll(arguments));
    assert [] + misuses == misuses;
  }

  /** Parameters and a body in a scope of their own. */
  lemma {:induction false} FunctionSays(c: Constants, parameters: List<string>, body: List<Stmt>,
                                        scopes: seq<set<string>>)
    ensures Says(c, SourceOfFunction(parameters, body), scopes,
                 ReportBlock(c, Union(scopes) + NameSet(parameters), body),
                 Without(UsesOfBlock(body), NameSet(parameters)))
    decreases body, 2
  {
    hide Says, Scans, Union, SourceOfBlock, ReportBlock, UsesOfBlock, Added;
    var inner := scopes + [NameSet(parameters)];
    UnionPush(scopes, NameSet(parameters));
    BlockScans(c, body, inner);
    SaysScope(c, scopes, parameters, SourceOfBlock(body), Lets(body),
      ReportBlock(c, Union(scopes) + NameSet(parameters), body), UsesOfBlock(body));
  }

  lemma {:induction false} ArmsSay(c: Constants, arms: List<Arm>, scopes: seq<set<string>>)
    ensures Says(c, SourceOfArms(arms), scopes, ReportArms(c, Union(scopes), arms), UsesOfArms(arms))
    decreases arms, 0
  {
    hide Says, Union, SourceOfArmBody, ReportArmBody, UsesOfArmBody;
    if arms.Nil? {
      SaysNothing(c, scopes);
    } else {
      var names := Bindings(arms.head.pattern);
      ArmSays(c, names, arms.head.body, scopes);
      ArmsSay(c, arms.tail, scopes);
      SaysInTurn(c, [Enter] + Binds(names) + SourceOfArmBody(arms.head.body) + [Leave], SourceOfArms(arms.tail),
        scopes, ReportArmBody(c, Union(scopes) + NameSet(names), arms.head.body),
        ReportArms(c, Union(scopes), arms.tail), Without(UsesOfArmBody(arms.head.body), NameSet(names)),
        UsesOfArms(arms.tail));
    }
  }

  lemma {:induction false} ArmSays(c: Constants, names: List<string>, body: ArmBody, scopes: seq<set<string>>)
    ensures Says(c, [Enter] + Binds(names) + SourceOfArmBody(body) + [Leave], scopes,
                 ReportArmBody(c, Union(scopes) + NameSet(names), body),
                 Without(UsesOfArmBody(body), NameSet(names)))
    decreases body, 0
  {
    hide Scans, Union, Source, SourceOfBlock, ReportExpr, ReportBlock, UsesOf, UsesOfBlock, Added;
    var inner := scopes + [NameSet(names)];
    UnionPush(scopes, NameSet(names));
    match body {
      case Value(value) =>
        ExprSays(c, value, inner);
        AddedNothing(inner);
        hide Says;
        SaysScope(c, scopes, names, Source(value), {}, ReportExpr(c, Union(scopes) + NameSet(names), value),
          UsesOf(value));
      case Body(block) =>
        BlockScans(c, block, inner);
        hide Says;
        SaysScope(c, scopes, names, SourceOfBlock(block), Lets(block),
          ReportBlock(c, Union(scopes) + NameSet(names), block), UsesOfBlock(block));
    }
  }

  /** Statements, with what they bind for each other. */
  lemma {:induction false} BlockScans(c: Constants, block: List<Stmt>, scopes: seq<set<string>>)
    requires scopes != []
    ensures Scans(c, SourceOfBlock(block), scopes, Added(scopes, Lets(block)), ReportBlock(c, Union(scopes), block),
                  Without(UsesOfBlock(block), Union(scopes)))
    decreases block, 1
  {
    hide Scans, Union, Added, SourceOfStmt, ReportStmt, UsesOfStmt;
    if block.Nil? {
      ScansNothing(c, scopes);
      AddedNothing(scopes);
    } else {
      var bound := Declared(block.head);
      var between := Added(scopes, bound);
      AddedUnion(scopes, bound);
      StmtScans(c, block.head, scopes);
      BlockScans(c, block.tail, between);
      AddedTwice(scopes, bound, Lets(block.tail));
      ScansBoth(c, SourceOfStmt(block.head), SourceOfBlock(block.tail), scopes, between,
        Added(scopes, Lets(block)), ReportStmt(c, Union(scopes), block.head),
        ReportBlock(c, Union(scopes) + bound, block.tail), Without(UsesOfStmt(block.head), Union(scopes)),
        Without(UsesOfBlock(block.tail), Union(scopes) + bound));
      UsesOfRest(block, Union(scopes));
    }
  }

  /** What a statement binds is no use of the statements after it. */
  lemma UsesOfRest(block: List<Stmt>, locals: set<string>)
    requires block.Cons?
    ensures Without(UsesOfBlock(block), locals)
         == Without(UsesOfStmt(block.head), locals) + Without(UsesOfBlock(block.tail), locals + Declared(block.head))
  {
    var uses, rest := UsesOfStmt(block.head), UsesOfBlock(block.tail);
    if block.head.Let? {
      WithoutAppends(uses, Without(rest, {block.head.name}), locals);
      WithoutTwice(rest, {block.head.name}, locals);
      assert {block.head.name} + locals == locals + {block.head.name};
    } else {
      WithoutAppends(uses, rest, locals);
      assert locals + {} == locals;
    }
  }

  lemma {:induction false} StmtScans(c: Constants, s: Stmt, scopes: seq<set<string>>)
    requires scopes != []
    ensures Scans(c, SourceOfStmt(s), scopes, Added(scopes, Declared(s)), ReportStmt(c, Union(scopes), s),
                  Without(UsesOfStmt(s), Union(scopes)))
    decreases s, 2
  {
    hide Scans, Union, Added, Source, ReportExpr, UsesOf, SourceOfStmt, ReportStmt, UsesOfStmt;
    if s.Let? {
      LetScans(c, s, scopes);
    } else {
      StmtSays(c, s, scopes);
      AddedNothing(scopes);
    }
  }

  lemma {:induction false} LetScans(c: Constants, s: Stmt, scopes: seq<set<string>>)
    requires scopes != [] && s.Let?
    ensures Scans(c, SourceOfStmt(s), scopes, Added(scopes, {s.name}), ReportStmt(c, Union(scopes), s),
                  Without(UsesOfStmt(s), Union(scopes)))
    decreases s, 0
  {
    hide Scans, Union, Added, Source, ReportExpr, UsesOf;
    var misuses, uses := ReportExpr(c, Union(scopes), s.value), Without(UsesOf(s.value), Union(scopes));
    ExprSays(c, s.value, scopes);
    ScansBind(c, scopes, s.name);
    ScansBoth(c, Source(s.value), [Bind(s.name)], scopes, scopes, Added(scopes, {s.name}), misuses, [], uses, []);
    assert misuses + [] == misuses && uses + [] == uses;
  }

  /** A block in a scope of its own. */
  lemma {:induction false} InnerSays(c: Constants, block: List<Stmt>, scopes: seq<set<string>>)
    ensures Says(c, [Enter] + SourceOfBlock(block) + [Leave], scopes, ReportBlock(c, Union(scopes), block),
                 UsesOfBlock(block))
    decreases block, 3
  {
    hide Says, Union, SourceOfBlock, ReportBlock, UsesOfBlock;
    FunctionSays(c, Nil, block, scopes);
    assert [Enter] + [] == [Enter] && Union(scopes) + {} == Union(scopes);
    WithoutNothing(UsesOfBlock(block));
  }

  lemma {:induction false} WithoutNothing(names: seq<string>)
    ensures Without(names, {}) == names
  {
    if names != [] {
      WithoutNothing(names[1..]);
    }
  }

  lemma {:induction false} StmtSays(c: Constants, s: Stmt, scopes: seq<set<string>>)
    requires !s.Let?
    ensures Says(c, SourceOfStmt(s), scopes, ReportStmt(c, Union(scopes), s), UsesOfStmt(s))
    decreases s, 1
  {
    hide Says, Union, Source, SourceOfBlock, SourceOfElse, ReportExpr, ReportBlock, ReportElse, UsesOf, UsesOfBlock;
    hide UsesOfElse;
    match s {
      case Assign(_, _) => AssignSays(c, s, scopes);
      case Return(None) => SaysNothing(c, scopes);
      case Return(Some(value)) => ExprSays(c, value, scopes);
      case Block(block) => InnerSays(c, block, scopes);
      case If(condition, thenBlock, orElse) =>
        ExprSays(c, condition, scopes);
        InnerSays(c, thenBlock, scopes);
        ElseSays(c, orElse, scopes);
        SaysThree(c, Source(condition), [Enter] + SourceOfBlock(thenBlock) + [Leave], SourceOfElse(orElse), scopes,
          ReportExpr(c, Union(scopes), condition), ReportBlock(c, Union(scopes), thenBlock),
          ReportElse(c, Union(scopes), orElse), UsesOf(condition), UsesOfBlock(thenBlock), UsesOfElse(orElse));
      case While(condition, body) =>
        ExprSays(c, condition, scopes);
        InnerSays(c, body, scopes);
        SaysInTurn(c, Source(condition), [Enter] + SourceOfBlock(body) + [Leave], scopes,
          ReportExpr(c, Union(scopes), condition), ReportBlock(c, Union(scopes), body), UsesOf(condition),
          UsesOfBlock(body));
      case For(_, _, _) => ForSays(c, s, scopes);
      case Break => SaysNothing(c, scopes);
      case Continue => SaysNothing(c, scopes);
      case Do(expression) => ExprSays(c, expression, scopes);
    }
  }

  lemma {:induction false} AssignSays(c: Constants, s: Stmt, scopes: seq<set<string>>)
    requires s.Assign?
    ensures Says(c, SourceOfStmt(s), scopes, ReportStmt(c, Union(scopes), s), UsesOfStmt(s))
    decreases s, 0
  {
    hide Says, Union, Source, ReportExpr, UsesOf;
    ExprSays(c, s.value, scopes);
    match s.target {
      case Name(name) =>
        SaysUse(c, scopes, Assigned(name));
        SaysInTurn(c, [Assigned(name)], Source(s.value), scopes,
          if name in Union(scopes) then [] else Misuse(c, Assigned(name)), ReportExpr(c, Union(scopes), s.value),
          [name], UsesOf(s.value));
      case Element(receiver, index) =>
        ExprSays(c, receiver, scopes);
        ExprSays(c, index, scopes);
        SaysThree(c, Source(receiver), Source(index), Source(s.value), scopes, ReportExpr(c, Union(scopes), receiver),
          ReportExpr(c, Union(scopes), index), ReportExpr(c, Union(scopes), s.value), UsesOf(receiver),
          UsesOf(index), UsesOf(s.value));
    }
  }

  lemma {:induction false} ForSays(c: Constants, s: Stmt, scopes: seq<set<string>>)
    requires s.For?
    ensures Says(c, SourceOfStmt(s), scopes, ReportStmt(c, Union(scopes), s), UsesOfStmt(s))
    decreases s, 0
  {
    hide Says, Union, Source, SourceOfBlock, ReportExpr, ReportBlock, UsesOf, UsesOfBlock;
    ExprSays(c, s.iterable, scopes);
    FunctionSays(c, Cons(s.binding, Nil), s.body, scopes);
    assert NameSet(Cons(s.binding, Nil)) == {s.binding} && Binds(Cons(s.binding, Nil)) == [Bind(s.binding)];
    SaysInTurn(c, Source(s.iterable), [Enter] + [Bind(s.binding)] + SourceOfBlock(s.body) + [Leave], scopes,
      ReportExpr(c, Union(scopes), s.iterable), ReportBlock(c, Union(scopes) + {s.binding}, s.body),
      UsesOf(s.iterable), Without(UsesOfBlock(s.body), {s.binding}));
  }

  lemma {:induction false} ElseSays(c: Constants, orElse: Else, scopes: seq<set<string>>)
    ensures Says(c, SourceOfElse(orElse), scopes, ReportElse(c, Union(scopes), orElse), UsesOfElse(orElse))
    decreases orElse
  {
    hide Says, Union, Source, SourceOfBlock, ReportExpr, ReportBlock, UsesOf, UsesOfBlock;
    match orElse {
      case NoElse => SaysNothing(c, scopes);
      case ElseBlock(block) => InnerSays(c, block, scopes);
      case ElseIf(condition, thenBlock, rest) =>
        ExprSays(c, condition, scopes);
        InnerSays(c, thenBlock, scopes);
        ElseSays(c, rest, scopes);
        SaysThree(c, Source(condition), [Enter] + SourceOfBlock(thenBlock) + [Leave], SourceOfElse(rest), scopes,
          ReportExpr(c, Union(scopes), condition), ReportBlock(c, Union(scopes), thenBlock),
          ReportElse(c, Union(scopes), rest), UsesOf(condition), UsesOfBlock(thenBlock), UsesOfElse(rest));
    }
  }

  // ---- Whole expressions and functions ----

  /** The names an expression uses are those of its free uses, in source order. */
  lemma UsesAreFree(e: Expr)
    ensures var free := Free(Source(e), []);
      (forall use | use in free :: !use.Enter? && !use.Leave?) && UsesOf(e) == NamesOf(free)
  {
    var c := Constants(map[], {});
    FreeAreNames(Source(e), []);
    ExprSays(c, e, []);
    WithoutNothing(UsesOf(e));
    assert Source(e) + [] == Source(e);
    assert Found(c, Source(e) + [], [])
        == Findings(ReportExpr(c, {}, e) + Found(c, [], []).misuses, UsesOf(e) + Found(c, [], []).names);
  }

  /** The free uses in a function's parameters and body. */
  function FreeInFunction(parameters: List<string>, body: List<Stmt>): seq<Token> {
    Free(SourceOfFunction(parameters, body), [])
  }

  /** The reports on a function are the misuses among its free uses, one for each, in source order. */
  lemma ReportsAreMisuses(c: Constants, parameters: List<string>, body: List<Stmt>)
    ensures ReportBlock(c, NameSet(parameters), body) == MisusesOf(c, FreeInFunction(parameters, body))
  {
    var tokens := SourceOfFunction(parameters, body);
    FunctionSays(c, parameters, body, []);
    assert tokens + [] == tokens && {} + NameSet(parameters) == NameSet(parameters);
    assert Found(c, tokens + [], [])
        == Findings(ReportBlock(c, NameSet(parameters), body) + Found(c, [], []).misuses,
          Without(Without(UsesOfBlock(body), NameSet(parameters)), {}) + Found(c, [], []).names);
  }

  lemma OneMisuse(c: Constants, use: Token, name: string)
    ensures multiset(Misuse(c, use))[PrivateConstant(name)]
         == if name in c.hidden && name !in c.visible then multiset([use])[Read(name)] else 0
    ensures multiset(Misuse(c, use))[AssignedConstant(name)]
         == if name in c.visible then multiset([use])[Assigned(name)] else 0
  {}

  /** As many reports of a name as free uses of that kind, when the name may not be used so, and otherwise none. */
  lemma {:induction false} MisusesCount(c: Constants, uses: seq<Token>, name: string)
    ensures multiset(MisusesOf(c, uses))[PrivateConstant(name)]
         == if name in c.hidden && name !in c.visible then multiset(uses)[Read(name)] else 0
    ensures multiset(MisusesOf(c, uses))[AssignedConstant(name)]
         == if name in c.visible then multiset(uses)[Assigned(name)] else 0
  {
    if uses != [] {
      MisusesCount(c, uses[1..], name);
      OneMisuse(c, uses[0], name);
      hide Misuse;
      assert uses == [uses[0]] + uses[1..];
      assert multiset(uses) == multiset([uses[0]]) + multiset(uses[1..]);
      assert multiset(MisusesOf(c, uses)) == multiset(Misuse(c, uses[0])) + multiset(MisusesOf(c, uses[1..]));
    }
  }
}
