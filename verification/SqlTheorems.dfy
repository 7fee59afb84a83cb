/** What `where` promises: its text reads back under SQL precedence, never faults, and is TRUE
    exactly for the records the matcher accepts; and where the two are known to differ. */
module SqlTheorems {
  import opened Lib
  import opened Datetimes
  import opened Values
  import opened SqlLiterals
  import opened SqlGrammar
  import opened SqlText
  import opened SqlEval
  import opened SqlFilter
  import opened SqlBinding
  import opened SqlMatcher
  import opened SqlSpelling
  import opened SqlProofs

  // ---- the text reads back -----------------------------------------------------------------------------

  /** Every condition can stand in an AND chain as it is. */
  predicate Chainable(es: seq<Expr>) {
    forall e | e in es :: Grouped(e) && Level(e) >= NOT_LEVEL
  }

  lemma FieldGrouped(name: string)
    ensures Grouped(FieldExpr(name)) && Level(FieldExpr(name)) == 7
  {
  }

  lemma BinGrouped(op: Infix, l: Expr, r: Expr)
    requires Grouped(l) && Grouped(r) && Level(l) > InfixLevel(op) && Level(r) > InfixLevel(op)
    ensures Grouped(Bin(op, l, r)) && Level(Bin(op, l, r)) == InfixLevel(op)
  {
  }

  lemma PostGrouped(leaf: Leaf, post: Postfix)
    ensures Grouped(Atom(leaf)) && Level(Atom(leaf)) == TIGHTEST
    ensures Grouped(Post(Atom(leaf), post)) && Level(Post(Atom(leaf), post)) == PostfixLevel(post)
  {
  }

  lemma ParenGrouped(x: Expr)
    requires Grouped(x)
    ensures Grouped(Paren(x)) && Level(Paren(x)) == TIGHTEST
    ensures Grouped(Typeof(x)) && Level(Typeof(x)) == TIGHTEST
  {
  }

  lemma PostOnGrouped(x: Expr, post: Postfix)
    requires Grouped(x) && Level(x) >= PostfixLevel(post)
    ensures Grouped(Post(x, post)) && Level(Post(x, post)) == PostfixLevel(post)
  {
  }

  lemma TypeIsGrouped(target: Expr, name: string)
    requires Grouped(target)
    ensures Grouped(TypeIs(target, name)) && Level(TypeIs(target, name)) == InfixLevel(EqOp)
  {
  }

  lemma EqualsChainable(name: string, v: Value, n: nat)
    requires CompileEquals(name, v, n).Ok?
    ensures forall e | e in CompileEquals(name, v, n).value.conditions :: Grouped(e) && Level(e) == TIGHTEST
  {
    hide Grouped, Level, Prepare, FieldExpr, TypeIs;
    FieldGrouped(name);
    var t := FieldExpr(name);
    PostGrouped(Param(n), AsJsonb);
    PostGrouped(Quoted("null"), AsJsonb);
    if v.Nil? {
      var either := NullEquality(t).e;
      PostOnGrouped(t, IsNull);
      BinGrouped(EqOp, t, either.r.r);
      BinGrouped(OrOp, either.l, either.r);
      ParenGrouped(either);
    } else {
      var either := ValueEquality(t, n).e;
      var both := either.r.e;
      TypeIsGrouped(t, "array");
      ContainsGrouped(t, n);
      BinGrouped(AndOp, both.l, both.r);
      ParenGrouped(both);
      BinGrouped(EqOp, t, JsonOperand(n));
      BinGrouped(OrOp, either.l, either.r);
      ParenGrouped(either);
    }
  }

  lemma ContainsGrouped(t: Expr, n: nat)
    requires Grouped(t) && Level(t) == 7
    ensures Grouped(Bin(ContainsOp, t, JsonOperand(n))) && Level(Bin(ContainsOp, t, JsonOperand(n))) == 7
  {
  }

  lemma NumberGrouped(t: Expr, o: Infix, n: nat)
    requires Grouped(t) && NonChaining(o)
    ensures Grouped(NumberComparison(t, o, n)) && Level(NumberComparison(t, o, n)) == TIGHTEST
  {
    hide Grouped, Level, TypeIs;
    var both := NumberComparison(t, o, n).e;
    PostGrouped(Param(n), AsNumeric);
    TypeIsGrouped(t, "number");
    ParenGrouped(t);
    PostOnGrouped(Paren(t), AsNumeric);
    BinGrouped(o, both.r.l, both.r.r);
    BinGrouped(AndOp, both.l, both.r);
    ParenGrouped(both);
  }

  lemma TextGrouped(t: Expr, o: Infix, n: nat)
    requires Grouped(t) && Level(t) == 7 && NonChaining(o)
    ensures Grouped(TextComparison(t, o, n)) && Level(TextComparison(t, o, n)) == TIGHTEST
  {
    hide Grouped, Level, TypeIs;
    var both := TextComparison(t, o, n).e;
    PostGrouped(Param(n), CollateC);
    PathTextGrouped(t);
    TypeIsGrouped(t, "string");
    ParenGrouped(Bin(PathTextOp, t, Atom(Quoted("{}"))));
    PostOnGrouped(Paren(Bin(PathTextOp, t, Atom(Quoted("{}")))), CollateC);
    BinGrouped(o, both.r.l, both.r.r);
    BinGrouped(AndOp, both.l, both.r);
    ParenGrouped(both);
  }

  lemma PathTextGrouped(t: Expr)
    requires Grouped(t) && Level(t) == 7
    ensures Grouped(Bin(PathTextOp, t, Atom(Quoted("{}"))))
  {
  }

  lemma CompareChainable(name: string, op: string, v: Value, n: nat)
    requires IsComparison(op) && CompileCompare(name, op, v, n).Ok?
    ensures Chainable(CompileCompare(name, op, v, n).value.conditions)
  {
    hide Grouped, Level, FieldExpr, NumberComparison, TextComparison;
    FieldGrouped(name);
    if v.Num? {
      NumberGrouped(FieldExpr(name), ComparisonOp(op), n);
    } else {
      TextGrouped(FieldExpr(name), ComparisonOp(op), n);
    }
  }

  lemma {:induction false} OptionsGrouped(name: string, options: seq<Value>, n: nat)
    requires CompileOptions(name, options, n).Ok?
    ensures forall e | e in CompileOptions(name, options, n).value.conditions :: Grouped(e) && Level(e) == TIGHTEST
  {
    if options != [] {
      EqualsChainable(name, options[0], n);
      OptionsGrouped(name, options[1..], n + |CompileEquals(name, options[0], n).value.params|);
    }
  }

  lemma OperatorChainable(name: string, op: string, v: Value, n: nat)
    requires CompileOperator(name, op, v, n).Ok?
    ensures Chainable(CompileOperator(name, op, v, n).value.conditions)
  {
    if IsComparison(op) {
      CompareChainable(name, op, v, n);
    } else if op == "$in" {
      OptionsGrouped(name, v.items, n);
      if v.items != [] {
        ChainGrouped(OrOp, CompileOptions(name, v.items, n).value.conditions);
      }
    } else {
      FieldGrouped(name);
      assert Grouped(ExistsExpr(name).value) && Level(ExistsExpr(name).value) >= NOT_LEVEL;
    }
  }

  lemma {:induction false} OperatorsChainable(name: string, spec: seq<(string, Value)>, n: nat)
    requires CompileOperators(name, spec, n).Ok?
    ensures Chainable(CompileOperators(name, spec, n).value.conditions)
  {
    hide CompileOperator;
    if spec != [] {
      OperatorChainable(name, spec[0].0, spec[0].1, n);
      OperatorsChainable(name, spec[1..], n + |CompileOperator(name, spec[0].0, spec[0].1, n).value.params|);
    }
  }

  lemma {:induction false} ClauseChainable(c: Clause, n: nat)
    requires CompileClause(c, n).Ok?
    ensures Chainable(CompileClause(c, n).value.conditions)
    decreases c, 1
  {
    match c
    case All(parts) =>
      PartsChainable(parts, n);
      if parts != [] {
        ChainGrouped(AndOp, Flatten(CompileParts(parts, n).value.conditions));
      }
    case Any(parts) =>
      PartsChainable(parts, n);
      if parts != [] {
        ChainGrouped(OrOp, AndEach(CompileParts(parts, n).value.conditions));
      }
    case Equal(name, v) =>
      EqualsChainable(name, v, n);
    case Braces(name, entries) =>
      if IsOperatorSpec(entries) {
        OperatorsChainable(name, entries, n);
      } else {
        EqualsChainable(name, Dict(ToDict(entries)), n);
      }
  }

  lemma {:induction false} PartsChainable(parts: seq<Filter>, n: nat)
    requires CompileParts(parts, n).Ok?
    ensures Chainable(Flatten(CompileParts(parts, n).value.conditions))
    ensures forall e | e in AndEach(CompileParts(parts, n).value.conditions) ::
      Grouped(e) && Level(e) >= InfixLevel(AndOp)
    decreases parts, 0
  {
    hide CompileFilter;
    if parts != [] {
      var head := CompileFilter(parts[0], n).value;
      FilterChainable(parts[0], n);
      ChainGrouped(AndOp, head.conditions);
      PartsChainable(parts[1..], n + |head.params|);
    }
  }

  lemma {:induction false} ClausesChainable(cs: seq<Clause>, n: nat)
    requires CompileClauses(cs, n).Ok?
    ensures Chainable(CompileClauses(cs, n).value.conditions)
    decreases cs, 0
  {
    hide CompileClause;
    if cs != [] {
      ClauseChainable(cs[0], n);
      ClausesChainable(cs[1..], n + |CompileClause(cs[0], n).value.params|);
    }
  }

  lemma {:induction false} FilterChainable(f: Filter, n: nat)
    requires CompileFilter(f, n).Ok?
    ensures Chainable(CompileFilter(f, n).value.conditions)
    decreases f, 0
  {
    ClausesChainable(f.clauses, n);
  }

  /** The flat text of any filter, `$or` parts unparenthesised and all, parses back to the compiled conditions
      joined by AND: as tokens always, and as characters exactly when no undotted `$exists` name has a quote or
      U+0000 in it. */
  lemma TextReadsBack(f: Filter, n: nat, c: Compiled<Expr>)
    requires CompileFilter(f, n) == Ok(c)
    ensures ParseAll(TextOf(c)) == Some(Chain(AndOp, c.conditions))
    ensures ReadSql(Render(TextOf(c))) == Some(Chain(AndOp, c.conditions)) <==> NamesPlain(f)
  {
    hide CompileFilter, NamesPlain, Lex, Render, Print, Chain, ParseAll;
    FilterChainable(f, n);
    ChainGrouped(AndOp, c.conditions);
    ParseInvertsPrint(Chain(AndOp, c.conditions));
    TextLexes(f, n, c);
    if ReadSql(Render(TextOf(c))).Some? {
      ParseAllSound(Lex(Render(TextOf(c))).value);
    }
  }

  // ---- grouping in the text changes nothing ------------------------------------------------------------

  /** The tree a filter describes, every part and operator list in parentheses of its own. */
  function NestedFilter(f: Filter, n: nat): Expr
    requires CompileFilter(f, n).Ok?
    decreases f, 0
  {
    if f.clauses == [] then Atom(Truth(true)) else Chain(AndOp, NestedClauses(f.clauses, n))
  }

  function NestedClauses(cs: seq<Clause>, n: nat): (es: seq<Expr>)
    requires CompileClauses(cs, n).Ok?
    ensures |es| == |cs|
    decreases cs, 0
  {
    if cs == [] then []
    else [NestedClause(cs[0], n)] + NestedClauses(cs[1..], n + |CompileClause(cs[0], n).value.params|)
  }

  function NestedClause(c: Clause, n: nat): Expr
    requires CompileClause(c, n).Ok?
    decreases c, 1
  {
    match c
    case All(parts) => if parts == [] then Atom(Truth(true)) else Paren(Chain(AndOp, NestedParts(parts, n)))
    case Any(parts) => if parts == [] then Atom(Truth(true)) else Paren(Chain(OrOp, NestedParts(parts, n)))
    case _ => Paren(Chain(AndOp, CompileClause(c, n).value.conditions))
  }

  function NestedParts(parts: seq<Filter>, n: nat): (es: seq<Expr>)
    requires CompileParts(parts, n).Ok?
    ensures |es| == |parts|
    decreases parts, 0
  {
    if parts == [] then []
    else [Paren(NestedFilter(parts[0], n))] + NestedParts(parts[1..], n + |CompileFilter(parts[0], n).value.params|)
  }

  lemma {:induction false} ChainSplit(xs: seq<Expr>, ys: seq<Expr>, env: Env)
    requires xs != [] && ys != []
    ensures Eval(Chain(AndOp, xs + ys), env) == AndSql(Eval(Chain(AndOp, xs), env), Eval(Chain(AndOp, ys), env))
    decreases |ys|
  {
    hide Eval, Chain, AndSql;
    var front, last := ys[..|ys| - 1], ys[|ys| - 1];
    assert xs + ys == (xs + front) + [last] && ys == front + [last];
    ChainLast(AndOp, xs + front, last, env);
    if |ys| > 1 {
      ChainSplit(xs, front, env);
      ChainLast(AndOp, front, last, env);
      AndAssociates(Eval(Chain(AndOp, xs), env), Eval(Chain(AndOp, front), env), Eval(last, env));
    } else {
      assert xs + front == xs && ys == [last];
      AloneInChain(AndOp, last, env);
    }
  }

  lemma ChainLast(op: Infix, es: seq<Expr>, e: Expr, env: Env)
    requires es != [] && (op == AndOp || op == OrOp)
    ensures Eval(Chain(op, es + [e]), env) == if op == AndOp then AndSql(Eval(Chain(op, es), env), Eval(e, env))
                                              else OrSql(Eval(Chain(op, es), env), Eval(e, env))
  {
  }

  lemma AndAssociates(a: Sql, b: Sql, c: Sql)
    ensures AndSql(AndSql(a, b), c) == AndSql(a, AndSql(b, c))
  {
  }

  lemma OrAssociates(a: Sql, b: Sql, c: Sql)
    ensures OrSql(OrSql(a, b), c) == OrSql(a, OrSql(b, c))
  {
  }

  lemma {:induction false} OrSplit(x: Expr, ys: seq<Expr>, env: Env)
    requires ys != []
    ensures Eval(Chain(OrOp, [x] + ys), env) == OrSql(Eval(x, env), Eval(Chain(OrOp, ys), env))
    decreases |ys|
  {
    hide Eval, Chain, OrSql;
    var front, last := ys[..|ys| - 1], ys[|ys| - 1];
    assert [x] + ys == ([x] + front) + [last] && ys == front + [last];
    ChainLast(OrOp, [x] + front, last, env);
    if |ys| > 1 {
      OrSplit(x, front, env);
      ChainLast(OrOp, front, last, env);
      OrAssociates(Eval(x, env), Eval(Chain(OrOp, front), env), Eval(last, env));
    } else {
      assert [x] + front == [x] && ys == [last];
      AloneInChain(OrOp, last, env);
      AloneInChain(OrOp, x, env);
    }
  }

  lemma AloneInChain(op: Infix, e: Expr, env: Env)
    ensures Chain(op, [e]) == e && Eval(Paren(e), env) == Eval(e, env)
  {
  }

  lemma {:induction false} NestedPartsSame(parts: seq<Filter>, n: nat, env: Env)
    requires parts != [] && CompileParts(parts, n).Ok?
    ensures Eval(Chain(AndOp, Flatten(CompileParts(parts, n).value.conditions)), env)
         == Eval(Chain(AndOp, NestedParts(parts, n)), env)
    ensures Eval(Chain(OrOp, AndEach(CompileParts(parts, n).value.conditions)), env)
         == Eval(Chain(OrOp, NestedParts(parts, n)), env)
    decreases parts, 0
  {
    hide CompileFilter, NestedFilter, Eval, Chain;
    var head := CompileFilter(parts[0], n).value;
    var tail := CompileParts(parts[1..], n + |head.params|).value;
    var ess := [head.conditions] + tail.conditions;
    assert CompileParts(parts, n).value.conditions == ess;
    var nested, rest := Paren(NestedFilter(parts[0], n)), NestedParts(parts[1..], n + |head.params|);
    assert NestedParts(parts, n) == [nested] + rest;
    NestedFilterSame(parts[0], n, env);
    AloneInChain(AndOp, nested.e, env);
    if |parts| == 1 {
      assert ess == [head.conditions] && [nested] + rest == [nested];
      OneBoth(head.conditions, nested, env);
    } else {
      NestedPartsSame(parts[1..], n + |head.params|, env);
      SplitBoth(head.conditions, nested, tail.conditions, rest, env);
    }
  }

  lemma OneBoth(conditions: seq<Expr>, nested: Expr, env: Env)
    requires conditions != []
    requires Eval(Chain(AndOp, conditions), env) == Eval(nested, env)
    ensures Eval(Chain(AndOp, Flatten([conditions])), env) == Eval(Chain(AndOp, [nested]), env)
    ensures Eval(Chain(OrOp, AndEach([conditions])), env) == Eval(Chain(OrOp, [nested]), env)
  {
    hide Eval;
    assert Flatten([conditions]) == conditions;
    assert AndEach([conditions]) == [Chain(AndOp, conditions)];
  }

  lemma SplitBoth(conditions: seq<Expr>, nested: Expr, ess: seq<seq<Expr>>, rest: seq<Expr>, env: Env)
    requires conditions != [] && ess != [] && NoneEmpty(ess) && rest != []
    requires Eval(Chain(AndOp, conditions), env) == Eval(nested, env)
    requires Eval(Chain(AndOp, Flatten(ess)), env) == Eval(Chain(AndOp, rest), env)
    requires Eval(Chain(OrOp, AndEach(ess)), env) == Eval(Chain(OrOp, rest), env)
    ensures Eval(Chain(AndOp, Flatten([conditions] + ess)), env) == Eval(Chain(AndOp, [nested] + rest), env)
    ensures Eval(Chain(OrOp, AndEach([conditions] + ess)), env) == Eval(Chain(OrOp, [nested] + rest), env)
  {
    hide Eval, Chain;
    var all := [conditions] + ess;
    assert all[1..] == ess;
    AloneInChain(AndOp, nested, env);
    ChainSplit(conditions, Flatten(ess), env);
    ChainSplit([nested], rest, env);
    OrSplit(Chain(AndOp, conditions), AndEach(ess), env);
    OrSplit(nested, rest, env);
  }

  lemma {:induction false} NestedClauseSame(c: Clause, n: nat, env: Env)
    requires CompileClause(c, n).Ok?
    ensures Eval(Chain(AndOp, CompileClause(c, n).value.conditions), env) == Eval(NestedClause(c, n), env)
    decreases c, 1
  {
    hide CompileParts, NestedParts, Eval, Chain, CompileEquals, CompileOperators;
    AloneInChain(AndOp, NestedClause(c, n), env);
    if NestedClause(c, n).Paren? {
      AloneInChain(AndOp, NestedClause(c, n).e, env);
    }
    if CompileClause(c, n).value.conditions[0].Paren? {
      AloneInChain(AndOp, CompileClause(c, n).value.conditions[0], env);
      AloneInChain(AndOp, CompileClause(c, n).value.conditions[0].e, env);
    }
    match c
    case All(parts) =>
      if parts != [] {
        NestedPartsSame(parts, n, env);
      }
    case Any(parts) =>
      if parts != [] {
        NestedPartsSame(parts, n, env);
      }
    case _ =>
  }

  lemma {:induction false} NestedClausesSame(cs: seq<Clause>, n: nat, env: Env)
    requires cs != [] && CompileClauses(cs, n).Ok?
    ensures Eval(Chain(AndOp, CompileClauses(cs, n).value.conditions), env)
            == Eval(Chain(AndOp, NestedClauses(cs, n)), env)
    decreases cs, 0
  {
    hide CompileClause, NestedClause, Eval, Chain;
    var head := CompileClause(cs[0], n).value;
    var tail := CompileClauses(cs[1..], n + |head.params|).value;
    NestedClauseSame(cs[0], n, env);
    var nested, rest := NestedClause(cs[0], n), NestedClauses(cs[1..], n + |head.params|);
    assert NestedClauses(cs, n) == [nested] + rest;
    AloneInChain(AndOp, nested, env);
    if |cs| == 1 {
      assert head.conditions + tail.conditions == head.conditions && [nested] + rest == [nested];
    } else {
      NestedClausesSame(cs[1..], n + |head.params|, env);
      ChainSplit(head.conditions, tail.conditions, env);
      ChainSplit([nested], rest, env);
    }
  }

  /** Over any document and parameters, the flat text of a filter has the very value, NULL included,
      of the tree in which every part stands in its own parentheses. */
  lemma {:induction false} NestedFilterSame(f: Filter, n: nat, env: Env)
    requires CompileFilter(f, n).Ok?
    ensures Eval(Chain(AndOp, CompileFilter(f, n).value.conditions), env) == Eval(NestedFilter(f, n), env)
    decreases f, 0
  {
    if f.clauses != [] {
      NestedClausesSame(f.clauses, n, env);
    }
  }

  // ---- the main results ------------------------------------------------------------------------------------

  /** The parameter list of a statement that binds `before`, then a filter, then `after`. */
  function Statement(doc: map<string, Value>, before: seq<Bound>, c: Compiled<Expr>, after: seq<Bound>): Env {
    Env(Prepare(Dict(doc)).fields, before + c.params + after)
  }

  /** Neither an operand of the filter nor what else is bound holds U+0000, and the parameters are not too many. */
  predicate Runnable(f: Filter, before: seq<Bound>, c: Compiled<Expr>, after: seq<Bound>) {
    AllBind(before) && OperandsBind(f) && AllBind(after) && |before| + |c.params| + |after| <= MAX_PARAMS
  }

  lemma StatementBinds(f: Filter, before: seq<Bound>, c: Compiled<Expr>, after: seq<Bound>)
    requires CompileFilter(f, |before| + 1) == Ok(c)
    ensures CanRun(before + c.params + after) <==> Runnable(f, before, c, after)
  {
    hide CompileFilter, AllBind, OperandsBind;
    FilterBinds(f, |before| + 1, c);
    BindBoth(before, c.params);
    BindBoth(before + c.params, after);
  }

  /** Read back from its characters under SQL precedence and run over the stored record with three-valued logic,
      the text of a filter is TRUE exactly when the matcher accepts the record and the statement can run, wherever
      in it the filter's parameters sit (a patch before them, LIMIT and OFFSET after). */
  lemma WhereMeansMatch(doc: map<string, Value>, f: Filter, before: seq<Bound>, c: Compiled<Expr>, after: seq<Bound>)
    requires CompileFilter(f, |before| + 1) == Ok(c)
    requires FilterDomain(doc, f) && MatchFilter(doc, f).Holds?
    ensures ReadSql(Render(TextOf(c))).Some?
    ensures Run(ReadSql(Render(TextOf(c))).value, Statement(doc, before, c, after)) == B(true)
       <==> MatchFilter(doc, f).b && Runnable(f, before, c, after)
  {
    hide CompileFilter, MatchFilter, FilterDomain, NamesPlain, ReadSql, Render, Print, Run, Chain, Runnable, CanRun;
    StatementBinds(f, before, c, after);
    DomainNamesPlain(doc, f);
    TextReadsBack(f, |before| + 1, c);
    ParametersArePlaced(doc, before, c, after);
    FilterAgrees(doc, Statement(doc, before, c, after), f, |before| + 1, c);
    assert Statement(doc, before, c, after).params == before + c.params + after;
  }

  lemma ParametersArePlaced(doc: map<string, Value>, before: seq<Bound>, c: Compiled<Expr>, after: seq<Bound>)
    ensures Stores(Statement(doc, before, c, after), doc)
    ensures Placed(Statement(doc, before, c, after), |before| + 1, c.params)
  {
  }

  /** Any JSON value is the stored form of some record value. */
  function Lifted(j: Json): Value {
    match j
    case JNull => Nil
    case JBool(b) => Bool(b)
    case JNum(n) => Num(n)
    case JStr(s) => Text(s)
    case JArr(items) => List(seq(|items|, i requires 0 <= i < |items| => Lifted(items[i])))
    case JObj(fields) => Dict(map k | k in fields :: Lifted(fields[k]))
  }

  lemma {:induction false} PrepareLifted(j: Json)
    ensures Prepare(Lifted(j)) == j
  {
    match j
    case JArr(items) =>
      forall i | 0 <= i < |items|
        ensures Prepare(Lifted(items[i])) == items[i]
      {
        PrepareLifted(items[i]);
      }
      assert PrepareAll(Lifted(j).items) == items;
    case JObj(fields) =>
      forall k | k in fields
        ensures Prepare(Lifted(fields[k])) == fields[k]
      {
        PrepareLifted(fields[k]);
      }
      assert Prepare(Lifted(j)).fields == fields;
    case _ =>
  }

  /** Over any stored document at all, running a compiled filter gives TRUE, FALSE or NULL exactly when no operand
      bound with it holds U+0000 and they are not too many: then no cast in it ever meets a value it cannot convert,
      because the type test beside it answers first. This takes AND to look at its left side first, as the text is
      written; PostgreSQL leaves the order of evaluation open. */
  lemma WhereNeverFaults(stored: map<string, Json>, f: Filter, before: seq<Bound>, c: Compiled<Expr>, after: seq<Bound>)
    requires CompileFilter(f, |before| + 1) == Ok(c)
    ensures IsLogical(Run(Chain(AndOp, c.conditions), Env(stored, before + c.params + after)))
       <==> Runnable(f, before, c, after)
  {
    hide CompileFilter, Run, Chain, Runnable, CanRun;
    StatementBinds(f, before, c, after);
    PrepareLifted(JObj(stored));
    var doc := Lifted(JObj(stored)).fields;
    assert Env(stored, before + c.params + after) == Statement(doc, before, c, after);
    ParametersArePlaced(doc, before, c, after);
    FilterAgrees(doc, Env(stored, before + c.params + after), f, |before| + 1, c);
  }

  /** The family it fails on: an operand with U+0000 beside any alternative that holds. The matcher accepts the
      record, and the statement is an error. */
  lemma NulOperandBreaks(doc: map<string, Value>, name: string, other: string, s: string, before: seq<Bound>,
                         after: seq<Bound>)
    requires GoodName(name) && GoodName(other) && Get(doc, other) == Bool(true) && '\0' in s
    ensures var f := Either(Equal(name, Text(s)), Equal(other, Bool(true)));
      && MatchFilter(doc, f) == Holds(true) && CompileFilter(f, |before| + 1).Ok?
      && var c := CompileFilter(f, |before| + 1).value;
        Run(Chain(AndOp, c.conditions), Statement(doc, before, c, after)) == Fault
  {
    var first, second := Equal(name, Text(s)), Equal(other, Bool(true));
    var f := Either(first, second);
    EitherMatches(doc, first, second);
    EitherCompiles(first, second, |before| + 1);
    EitherFails(first, second);
    hide CompileFilter, Run, Chain, OperandsBind, CanRun, MatchFilter, Either;
    var c := CompileFilter(f, |before| + 1).value;
    StatementBinds(f, before, c, after);
    RunUnbound(Chain(AndOp, c.conditions), Statement(doc, before, c, after));
  }

  lemma RunUnbound(e: Expr, env: Env)
    requires !CanRun(env.params)
    ensures Run(e, env) == Fault
  {
  }

  /** `{"$or": [{...}, {...}]}` */
  function Either(a: Clause, b: Clause): Filter {
    Filter([Any([Filter([a]), Filter([b])])])
  }

  lemma EitherMatches(doc: map<string, Value>, a: Clause, b: Clause)
    requires MatchClause(doc, a).Holds? && MatchClause(doc, b) == Holds(true)
    ensures MatchFilter(doc, Either(a, b)) == Holds(true)
  {
    hide MatchClause, MatchFilter;
    OneClause(doc, a);
    OneClause(doc, b);
    TwoParts(doc, Filter([a]), Filter([b]));
    AnyIsMatchAny(doc, [Filter([a]), Filter([b])]);
    OneClause(doc, Any([Filter([a]), Filter([b])]));
  }

  lemma EitherCompiles(a: Clause, b: Clause, n: nat)
    requires GoodClause(a) && GoodClause(b)
    ensures CompileFilter(Either(a, b), n).Ok?
  {
    hide GoodClause, CompileFilter;
    assert GoodFilter(Filter([a])) && GoodFilter(Filter([b]));
    assert GoodClause(Any([Filter([a]), Filter([b])])) by { AnyIsGood([Filter([a]), Filter([b])]); }
    FilterCompiles(Either(a, b), n);
  }

  lemma AnyIsGood(parts: seq<Filter>)
    requires forall f | f in parts :: GoodFilter(f)
    ensures GoodClause(Any(parts))
  {
  }

  lemma EitherFails(a: Clause, b: Clause)
    requires !ClauseBinds(a)
    ensures !OperandsBind(Either(a, b))
  {
    var f := Filter([a]);
    assert a in f.clauses && !OperandsBind(f);
    var either := Any([f, Filter([b])]);
    assert f in either.parts && !ClauseBinds(either);
    assert either in Either(a, b).clauses;
  }

  /** A missing field makes every comparison, and equality with anything but null, NULL, if the parameters can be
      bound. */
  lemma MissingFieldIsNull(doc: map<string, Value>, env: Env, name: string, e: Value, n: nat)
    requires Stores(env, doc) && ReadsPath(name) && Find(doc, name).None?
    ensures forall c | CompileEquals(name, e, n) == Ok(c) && Placed(env, n, c.params) && !e.Nil? ::
      Run(c.conditions[0], env) == if CanRun(env.params) then Null else Fault
    ensures forall op, c | IsComparison(op) && CompileCompare(name, op, e, n) == Ok(c) && Placed(env, n, c.params) ::
      Run(c.conditions[0], env) == if CanRun(env.params) then Null else Fault
  {
    hide SqlFind, ReadsPath, Find, Eval, Placed;
    forall c | CompileEquals(name, e, n) == Ok(c) && Placed(env, n, c.params) && !e.Nil?
      ensures Eval(c.conditions[0], env) == Null
    {
      SqlFindIsFind(doc, name);
      EqualsValue(doc, env, name, e, n, c);
    }
    forall op, c | IsComparison(op) && CompileCompare(name, op, e, n) == Ok(c) && Placed(env, n, c.params)
      ensures Eval(c.conditions[0], env) == Null
    {
      SqlFindIsFind(doc, name);
      CompareValue(doc, env, name, op, e, n, c);
    }
  }

  // ---- what the comparisons ask -----------------------------------------------------------------------------

  /** The stored value lies below the operand, among values of its kind; a datetime is stored as its text. */
  predicate Below(v: Value, e: Value) {
    match (v, e)
    case (Num(a), Num(b)) => a < b
    case (Text(a), Text(b)) => TextLess(a, b)
    case (Time(a), Time(b)) => Instant(a) < Instant(b)
    case (Text(a), Time(b)) => TextLess(a, Encode(b))
    case (Time(a), Text(b)) => TextLess(Encode(a), b)
    case _ => false
  }

  predicate SameKind(v: Value, e: Value) {
    (v.Num? && e.Num?) || ((v.Text? || v.Time?) && (e.Text? || e.Time?))
  }

  /** `{name: {op: e}}` */
  function ComparisonFilter(name: string, op: string, e: Value): Filter {
    Filter([Braces(name, [(op, e)])])
  }

  lemma ComparedMeans(found: Option<Value>, e: Value)
    requires e.Num? || e.Text? || e.Time?
    ensures Compared(found, "$lt", e) == B(true) <==> found.Some? && Below(found.value, e)
    ensures Compared(found, "$gt", e) == B(true) <==> found.Some? && Below(e, found.value)
    ensures Compared(found, "$lte", e) == B(true) <==>
      found.Some? && SameKind(found.value, e) && !Below(e, found.value)
  {
    hide Encode, Instant, TextLess;
    if found.Some? && SameKind(found.value, e) && !e.Num? {
      var v := found.value;
      var a, b := if v.Text? then v.s else Encode(v.t), if e.Text? then e.s else Encode(e.t);
      TextLessTrichotomy(a, b);
      TextLessIrreflexive(a);
      if v.Time? && e.Time? {
        TextOrderIsInstantOrder(v.t, e.t);
        TextOrderIsInstantOrder(e.t, v.t);
      }
    }
  }

  lemma OneComparison(doc: map<string, Value>, name: string, op: string, e: Value, before: seq<Bound>,
                      after: seq<Bound>) returns (c: Compiled<Expr>)
    requires IsComparison(op) && op[0] == '$' && GoodName(name) && (e.Num? || e.Text? || e.Time?)
    ensures CompileFilter(ComparisonFilter(name, op, e), |before| + 1) == Ok(c)
    ensures ReadSql(Render(TextOf(c))).Some?
    ensures ReadsPath(name) ==>
      Run(ReadSql(Render(TextOf(c))).value, Statement(doc, before, c, after))
        == if Runnable(ComparisonFilter(name, op, e), before, c, after) then Compared(Find(doc, name), op, e) else Fault
  {
    var f, n := ComparisonFilter(name, op, e), |before| + 1;
    c := CompileCompare(name, op, e, n).value;
    AloneCompiles(name, op, e, n);
    hide CompileFilter, CompileCompare, ReadSql, Render, Find, SqlFind, ReadsPath, GoodName, Compared, Runnable, CanRun;
    hide Eval, Print;
    ComparisonNamePlain(name, op, e);
    TextReadsBack(f, n, c);
    StatementBinds(f, before, c, after);
    var env := Statement(doc, before, c, after);
    if ReadsPath(name) {
      ParametersArePlaced(doc, before, c, after);
      SqlFindIsFind(doc, name);
      CompareValue(doc, env, name, op, e, n, c);
      AloneInChain(AndOp, c.conditions[0], env);
      assert c.conditions == [c.conditions[0]];
    }
  }

  lemma AloneCompiles(name: string, op: string, e: Value, n: nat)
    requires IsComparison(op) && op[0] == '$' && GoodName(name) && (e.Num? || e.Text? || e.Time?)
    ensures CompileCompare(name, op, e, n).Ok?
    ensures CompileFilter(ComparisonFilter(name, op, e), n) == CompileCompare(name, op, e, n)
  {
    hide FieldExpr, GoodName;
    assert Field(name).Ok? by { GoodNames(name); }
    var spec := [(op, e)];
    assert spec[0] in spec && IsOperatorSpec(spec) && spec[1..] == [];
    var c := CompileCompare(name, op, e, n).value;
    assert CompileOperator(name, op, e, n) == Ok(c);
    assert CompileOperators(name, [], n + |c.params|) == Ok(Compiled([], []));
    Alone(c);
    assert CompileOperators(name, spec, n) == Ok(c);
    var cs := [Braces(name, spec)];
    assert cs[1..] == [] && CompileClause(cs[0], n) == Ok(c);
    assert CompileClauses(cs, n) == Ok(c);
  }

  lemma Alone(c: Compiled<Expr>)
    ensures Compiled(c.conditions + [], c.params + []) == c
  {
    assert c.conditions + [] == c.conditions && c.params + [] == c.params;
  }

  lemma GoodNames(name: string)
    requires GoodName(name)
    ensures Field(name).Ok?
  {
  }

  lemma ComparisonNamePlain(name: string, op: string, e: Value)
    requires op != "$exists"
    ensures NamesPlain(ComparisonFilter(name, op, e))
  {
    var spec := [(op, e)];
    assert forall x | x in spec :: x.0 == op;
    assert ClauseNamesPlain(Braces(name, spec));
  }

  /** For every good name and every number, text or datetime, the three comparisons compile, and their text, run over
      a stored record, is TRUE exactly when the record has a value of the operand's kind there that is below, at
      most, or above it. */
  lemma ComparisonsMean(doc: map<string, Value>, name: string, e: Value, before: seq<Bound>, after: seq<Bound>)
    requires GoodName(name) && (e.Num? || e.Text? || e.Time?)
    ensures forall op | op in ["$lt", "$lte", "$gt"] ::
      && CompileFilter(ComparisonFilter(name, op, e), |before| + 1).Ok?
      && var c := CompileFilter(ComparisonFilter(name, op, e), |before| + 1).value;
      && ReadSql(Render(TextOf(c))).Some?
      && (ReadsPath(name) && Runnable(ComparisonFilter(name, op, e), before, c, after) ==>
            (Run(ReadSql(Render(TextOf(c))).value, Statement(doc, before, c, after)) == B(true) <==>
              var found := Find(doc, name);
              && found.Some?
              && if op == "$lt" then Below(found.value, e)
                 else if op == "$gt" then Below(e, found.value)
                 else SameKind(found.value, e) && !Below(e, found.value)))
  {
    hide CompileFilter, ReadSql, Render, Find, ReadsPath, GoodName, Compared, Runnable, Run, Below, SameKind, Statement;
    hide ComparisonFilter;
    ComparedMeans(Find(doc, name), e);
    var lt := OneComparison(doc, name, "$lt", e, before, after);
    var lte := OneComparison(doc, name, "$lte", e, before, after);
    var gt := OneComparison(doc, name, "$gt", e, before, after);
  }

  // ---- which filters raise ValueError ------------------------------------------------------------------------

  lemma {:induction false} OptionsCompile(name: string, options: seq<Value>, n: nat)
    ensures CompileOptions(name, options, n).Ok? <==> options == [] || GoodName(name)
  {
    if options != [] {
      var head := CompileEquals(name, options[0], n);
      if head.Ok? {
        OptionsCompile(name, options[1..], n + |head.value.params|);
      }
    }
  }

  lemma OperatorCompiles(name: string, op: string, e: Value, n: nat)
    ensures CompileOperator(name, op, e, n).Ok? <==> GoodOperator(name, op, e)
  {
    if e.List? {
      OptionsCompile(name, e.items, n);
    }
  }

  lemma {:induction false} OperatorsCompile(name: string, spec: seq<(string, Value)>, n: nat)
    ensures CompileOperators(name, spec, n).Ok? <==> forall x | x in spec :: GoodOperator(name, x.0, x.1)
  {
    hide CompileOperator, GoodOperator;
    if spec != [] {
      var (op, e) := spec[0];
      OperatorCompiles(name, op, e, n);
      var head := CompileOperator(name, op, e, n);
      assert spec[0] in spec && forall x :: x in spec <==> x == spec[0] || x in spec[1..];
      if head.Ok? {
        OperatorsCompile(name, spec[1..], n + |head.value.params|);
      }
    }
  }

  lemma {:induction false} ClauseCompiles(c: Clause, n: nat)
    ensures CompileClause(c, n).Ok? <==> GoodClause(c)
    decreases c, 1
  {
    match c
    case All(parts) => PartsCompile(parts, n);
    case Any(parts) => PartsCompile(parts, n);
    case Equal(_, _) =>
    case Braces(name, entries) => OperatorsCompile(name, entries, n);
  }

  lemma {:induction false} PartsCompile(parts: seq<Filter>, n: nat)
    ensures CompileParts(parts, n).Ok? <==> forall f | f in parts :: GoodFilter(f)
    decreases parts, 0
  {
    hide CompileFilter, GoodFilter;
    if parts != [] {
      var head := CompileFilter(parts[0], n);
      FilterCompiles(parts[0], n);
      assert parts[0] in parts && forall f :: f in parts <==> f == parts[0] || f in parts[1..];
      if head.Ok? {
        PartsCompile(parts[1..], n + |head.value.params|);
      }
    }
  }

  lemma {:induction false} ClausesCompile(cs: seq<Clause>, n: nat)
    ensures CompileClauses(cs, n).Ok? <==> forall c | c in cs :: GoodClause(c)
    decreases cs, 0
  {
    hide CompileClause, GoodClause;
    if cs != [] {
      var head := CompileClause(cs[0], n);
      ClauseCompiles(cs[0], n);
      assert cs[0] in cs && forall c :: c in cs <==> c == cs[0] || c in cs[1..];
      if head.Ok? {
        ClausesCompile(cs[1..], n + |head.value.params|);
      }
    }
  }

  /** A filter is refused exactly when some name, operator or operand in it is not acceptable. */
  lemma {:induction false} FilterCompiles(f: Filter, n: nat)
    ensures CompileFilter(f, n).Ok? <==> GoodFilter(f)
    decreases f, 0
  {
    ClausesCompile(f.clauses, n);
  }

  // ---- where SQL and the matcher part ways -------------------------------------------------------------------

  /** An empty `$or` compiles to TRUE; the matcher finds no part that holds. */
  lemma EmptyAnyDiffers(doc: map<string, Value>, n: nat)
    ensures CompileFilter(Filter([Any([])]), n) == Ok(Compiled([Atom(Truth(true))], []))
    ensures MatchFilter(doc, Filter([Any([])])) == Holds(false)
  {
    var cs := [Any([])];
    assert cs[1..] == [];
    assert CompileParts([], n) == Ok(Compiled([], []));
    var head := CompileClause(cs[0], n).value;
    AfterNothing(head);
    assert CompileClauses(cs, n) == After(head, CompileClauses(cs[1..], n + |head.params|));
  }

  lemma ArrayContainsScalars(xs: seq<Json>, ys: seq<Json>)
    requires forall j | 0 <= j < |ys| :: IsJsonScalar(ys[j])
    ensures Contains(JArr(xs), JArr(ys)) <==> forall j | 0 <= j < |ys| :: ys[j] in xs
  {
    if DeepContains(JArr(xs), JArr(ys)) {
      forall j | 0 <= j < |ys|
        ensures ys[j] in xs
      {
        var i :| 0 <= i < |xs| && DeepContains(xs[i], ys[j]);
        ScalarContains(xs[i], ys[j]);
      }
    }
    if forall j | 0 <= j < |ys| :: ys[j] in xs {
      forall j | 0 <= j < |ys|
        ensures exists i | 0 <= i < |xs| :: DeepContains(xs[i], ys[j])
      {
        var i :| 0 <= i < |xs| && xs[i] == ys[j];
        ScalarContains(xs[i], ys[j]);
      }
    }
  }

  lemma ScalarContains(x: Json, y: Json)
    requires IsJsonScalar(y)
    ensures DeepContains(x, y) <==> x == y
  {
  }

  /** A list operand asks for a superset: `@>` holds when every element of the operand is there. */
  lemma ListOperandMeansSuperset(items: seq<Value>, wanted: seq<Value>)
    requires forall y | y in wanted :: IsScalar(y)
    ensures Contains(Prepare(List(items)), Prepare(List(wanted)))
       <==> forall y | y in wanted :: Prepare(y) in PrepareAll(items)
  {
    hide Contains, Prepare, PrepareAll;
    var xs, ys := PrepareAll(items), PrepareAll(wanted);
    forall j | 0 <= j < |ys|
      ensures wanted[j] in wanted && ys[j] == Prepare(wanted[j]) && IsJsonScalar(ys[j])
    {
      ScalarStored(wanted[j]);
    }
    ListStored(items);
    ListStored(wanted);
    ArrayContainsScalars(xs, ys);
  }

  lemma ScalarStored(v: Value)
    requires IsScalar(v)
    ensures IsJsonScalar(Prepare(v))
  {
  }

  lemma ListStored(items: seq<Value>)
    ensures Prepare(List(items)) == JArr(PrepareAll(items))
  {
  }

  /** Every element of the operand is stored as some element of the list. */
  predicate IsSuperset(items: seq<Value>, wanted: seq<Value>) {
    forall y | y in wanted :: Prepare(y) in PrepareAll(items)
  }

  predicate AreScalars(items: seq<Value>) {
    forall x | x in items :: IsScalar(x)
  }

  predicate AnyConflated(items: seq<Value>, wanted: seq<Value>) {
    exists i | 0 <= i < |items| && i < |wanted| :: Conflated(items[i], wanted[i])
  }

  /** For lists of scalars, SQL accepts exactly the supersets and the matcher exactly the equal lists; unless a
      bool stands against a number they differ exactly when the operand is contained but not equal. */
  lemma ListOperandDiffers(items: seq<Value>, wanted: seq<Value>)
    requires AreScalars(items) && AreScalars(wanted)
    ensures SqlEqual(Some(Prepare(List(items))), List(wanted)) <==> IsSuperset(items, wanted)
    ensures MatchEqual(List(items), List(wanted)) <==> PyEq(List(items), List(wanted))
    ensures !AnyConflated(items, wanted) ==>
      ((SqlEqual(Some(Prepare(List(items))), List(wanted)) <==> MatchEqual(List(items), List(wanted)))
        <==> !(IsSuperset(items, wanted) && items != wanted))
  {
    hide Contains, Prepare, PrepareAll, Conflated;
    ListOperandMeansSuperset(items, wanted);
    ListStored(items);
    ListStored(wanted);
    if PrepareAll(items) == PrepareAll(wanted) {
      EqualListsContain(items, wanted);
    }
    if !AnyConflated(items, wanted) {
      EqualListsAreEqual(items, wanted);
      if items == wanted {
        EqualListsContain(items, wanted);
      }
    }
  }

  lemma EqualListsContain(items: seq<Value>, wanted: seq<Value>)
    requires PrepareAll(items) == PrepareAll(wanted)
    ensures IsSuperset(items, wanted)
  {
    forall y | y in wanted
      ensures Prepare(y) in PrepareAll(items)
    {
      var j :| 0 <= j < |wanted| && wanted[j] == y;
      assert PrepareAll(wanted)[j] == Prepare(y);
    }
  }

  lemma EqualListsAreEqual(items: seq<Value>, wanted: seq<Value>)
    requires AreScalars(items) && AreScalars(wanted) && !AnyConflated(items, wanted)
    ensures PyEq(List(items), List(wanted)) <==> items == wanted
  {
    hide Conflated, Prepare;
    forall i | 0 <= i < |items| && i < |wanted|
      ensures PyEq(items[i], wanted[i]) <==> items[i] == wanted[i]
    {
      assert wanted[i] in wanted;
      ScalarEqualityExactly(items[i], wanted[i]);
    }
    if |items| == |wanted| && forall i | 0 <= i < |items| :: PyEq(items[i], wanted[i]) {
      assert items == wanted;
    }
  }

  // ---- names that are not read as written --------------------------------------------------------------------

  /** `{name: {"$exists": ...}}` */
  function ExistsFilter(name: string, operand: Value): Filter {
    Filter([Braces(name, [("$exists", operand)])])
  }

  /** An undotted `$exists` name with a quote or U+0000 in it is accepted, but its text is not the text meant. */
  lemma QuotedNameBreaks(name: string, operand: Value, n: nat)
    requires |Split(name)| == 1 && !PlainText(name)
    ensures CompileFilter(ExistsFilter(name, operand), n).Ok?
    ensures var c := CompileFilter(ExistsFilter(name, operand), n).value;
      c.conditions != [] && ReadSql(Render(TextOf(c))) != Some(Chain(AndOp, c.conditions))
  {
    hide CompileFilter, ReadSql, Render, Split;
    var f := ExistsFilter(name, operand);
    var entries := [("$exists", operand)];
    assert entries[0] in entries && StartsWithDollar(entries[0].0);
    assert IsOperatorSpec(entries) && !OperatorNamePlain(name, entries[0].0);
    assert f.clauses[0] == Braces(name, entries) && f.clauses[0] in f.clauses;
    assert GoodFilter(f) && !ClauseNamesPlain(f.clauses[0]);
    FilterCompiles(f, n);
    TextReadsBack(f, n, CompileFilter(f, n).value);
  }

  function Nest(path: seq<string>): Value {
    if path == [] then Nil else Dict(map[path[0] := Nest(path[1..])])
  }

  lemma {:induction false} OnlyThatPath(path: seq<string>, other: seq<string>)
    requires |path| == |other|
    ensures Lookup(Nest(path), other).Some? <==> path == other
  {
    if path != [] {
      OnlyThatPath(path[1..], other[1..]);
      assert path == [path[0]] + path[1..] && other == [other[0]] + other[1..];
    }
  }

  /** A dotted name is read where the matcher looks, in every record, exactly when no part of it is the word NULL
      or ends in a newline. */
  lemma FieldIsFaithful(name: string)
    requires GoodName(name)
    ensures (forall doc :: SqlFind(doc, name) == Find(doc, name)) <==> ReadsPath(name)
  {
    hide SqlFind, GoodName, ReadsPath;
    if ReadsPath(name) {
      forall doc
        ensures SqlFind(doc, name) == Find(doc, name)
      {
        SqlFindIsFind(doc, name);
      }
    } else {
      var doc := NestedWitness(name);
    }
  }

  lemma NestedWitness(name: string) returns (doc: map<string, Value>)
    requires GoodName(name) && !ReadsPath(name)
    ensures Find(doc, name).Some? && SqlFind(doc, name).None?
  {
    hide GoodName, PathLiteral, ReadPath;
    var path := Split(name);
    doc := Nest(path).fields;
    OnlyThatPath(path, path);
    PathReadsBack(name);
    var read := ReadPath(PathLiteral(path));
    if read.Path? {
      PathLength(name);
      OnlyThatPath(path, read.parts);
    }
  }

  lemma PathLength(name: string)
    requires GoodName(name) && |Split(name)| > 1 && ReadPath(PathLiteral(Split(name))).Path?
    ensures |ReadPath(PathLiteral(Split(name))).parts| == |Split(name)|
  {
    hide PathLiteral, ReadPath, IsOdd;
    forall p | p in Split(name)
      ensures ',' !in p && !IsOdd(p)
    {
      IdentifierInArray(p);
    }
    ReadPathLiteral(Split(name));
  }
}
