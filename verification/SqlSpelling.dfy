/** The characters a compiled filter is written with: which filters' text is read back as the tokens meant. */
module SqlSpelling {
  import opened Lib
  import opened Values
  import opened SqlLiterals
  import opened SqlGrammar
  import opened SqlText
  import opened SqlFilter
  import opened SqlMatcher

  // ---- printed expressions ---------------------------------------------------------------------------------

  /** No constant in the expression has a quote or U+0000 in it. */
  predicate PlainExpr(e: Expr) {
    match e
    case Atom(leaf) => leaf.Quoted? ==> PlainText(leaf.text)
    case Paren(x) => PlainExpr(x)
    case Typeof(x) => PlainExpr(x)
    case Not(x) => PlainExpr(x)
    case Bin(_, l, r) => PlainExpr(l) && PlainExpr(r)
    case Post(x, _) => PlainExpr(x)
  }

  lemma PlainConcat(a: seq<Token>, b: seq<Token>)
    ensures PlainTokens(a + b) <==> PlainTokens(a) && PlainTokens(b)
  {
    hide PlainToken;
    assert forall i | 0 <= i < |a| :: (a + b)[i] == a[i];
    assert forall i | 0 <= i < |b| :: (a + b)[|a| + i] == b[i];
  }

  lemma SpacedAround(a: seq<Token>, sep: Token, b: seq<Token>)
    requires Spaced(a) && Spaced(b) && !sep.TLeaf?
    ensures Spaced(a + ([sep] + b)) && Spaced(a + [sep]) && Spaced([sep] + b)
  {
  }

  lemma {:induction false} PrintedTokens(e: Expr)
    ensures PlainTokens(Print(e)) <==> PlainExpr(e)
    ensures Spaced(Print(e))
  {
    hide PlainTokens, Spaced;
    match e
    case Atom(leaf) =>
      OneToken(TLeaf(leaf));
    case Paren(x) =>
      PrintedTokens(x);
      Around([LP], Print(x), [RP]);
      SpacedAround([], LP, Print(x));
    case Typeof(x) =>
      PrintedTokens(x);
      Around([TTypeof, LP], Print(x), [RP]);
    case Not(x) =>
      PrintedTokens(x);
      Around([TNot], Print(x), []);
      assert [TNot] + Print(x) + [] == [TNot] + Print(x);
    case Bin(op, l, r) =>
      PrintedTokens(l);
      PrintedTokens(r);
      SpacedAround(Print(l), TIn(op), Print(r));
      PlainConcat([TIn(op)], Print(r));
      PlainConcat(Print(l), [TIn(op)] + Print(r));
      OneToken(TIn(op));
    case Post(x, post) =>
      PrintedTokens(x);
      Around([], Print(x), [TPost(post)]);
      assert [] + Print(x) + [TPost(post)] == Print(x) + [TPost(post)];
  }

  lemma OneToken(t: Token)
    ensures PlainTokens([t]) <==> PlainToken(t)
    ensures Spaced([t])
  {
    assert [t][0] == t;
  }

  /** Tokens that are not leaves, on either side. */
  lemma Around(before: seq<Token>, ts: seq<Token>, after: seq<Token>)
    requires (forall t | t in before :: !t.TLeaf?) && (forall t | t in after :: !t.TLeaf?) && Spaced(ts)
    ensures PlainTokens(before + ts + after) <==> PlainTokens(ts)
    ensures Spaced(before + ts + after)
  {
    PlainConcat(before, ts);
    PlainConcat(before + ts, after);
  }

  // ---- compiled filters ----------------------------------------------------------------------------------------

  predicate AllPlain(es: seq<Expr>) {
    forall e | e in es :: PlainExpr(e)
  }

  lemma BinPlainExactly(op: Infix, l: Expr, r: Expr)
    ensures PlainExpr(Bin(op, l, r)) <==> PlainExpr(l) && PlainExpr(r)
  {
  }

  lemma {:induction false} ChainPlain(op: Infix, es: seq<Expr>)
    requires es != []
    ensures PlainExpr(Chain(op, es)) <==> AllPlain(es)
  {
    hide PlainExpr, AllPlain;
    var front, last := es[..|es| - 1], es[|es| - 1];
    AlonePlain(last);
    if |es| > 1 {
      assert es == front + [last];
      ChainPlain(op, front);
      PlainBoth(front, [last]);
      BinPlainExactly(op, Chain(op, front), last);
    } else {
      assert es == [last];
    }
  }

  lemma {:induction false} JoinedIsPlain(parts: seq<string>)
    requires forall p | p in parts :: PlainText(p)
    ensures PlainText(JoinWith(parts, ','))
  {
    assert parts == [] || parts[0] in parts;
    if |parts| > 1 {
      JoinedIsPlain(parts[1..]);
    }
  }

  lemma {:induction false} SplitIsPlain(name: string)
    requires forall p | p in SplitOn(name, '.') :: PlainText(p)
    ensures PlainText(name)
  {
    if name != "" {
      var rest := SplitOn(name[1..], '.');
      var all := SplitOn(name, '.');
      forall p | p in rest
        ensures PlainText(p)
      {
        var i :| 0 <= i < |rest| && rest[i] == p;
        if name[0] == '.' {
          assert all[i + 1] == p && all[i + 1] in all;
        } else {
          assert all[i] in all && (i > 0 ==> all[i] == p) && (i == 0 ==> all[i] == [name[0]] + p);
        }
      }
      SplitIsPlain(name[1..]);
      assert all[0] in all && name == [name[0]] + name[1..];
    }
  }

  lemma FieldPlain(name: string)
    requires GoodName(name)
    ensures PlainExpr(FieldExpr(name))
  {
    forall p | p in Split(name)
      ensures PlainText(p)
    {
      IdentifierIsPlain(p);
    }
    SplitIsPlain(name);
    JoinedIsPlain(Split(name));
  }

  lemma IdentifierIsPlain(part: string)
    requires IsIdentifier(part)
    ensures PlainText(part)
  {
    hide Core;
    var core := Core(part);
    forall i | 0 <= i < |part|
      ensures part[i] != '\'' && part[i] != NUL
    {
      assert i < |core| ==> part[i] == core[i] && (IsNameStart(core[i]) || IsDigit(core[i]));
    }
  }

  lemma EqualsPlain(name: string, v: Value, n: nat)
    requires CompileEquals(name, v, n).Ok?
    ensures AllPlain(CompileEquals(name, v, n).value.conditions)
  {
    hide FieldExpr;
    FieldPlain(name);
    ShapesPlain(FieldExpr(name), EqOp, n);
  }

  /** Nothing but the field itself could bring a quote or U+0000 into an equality or a comparison. */
  lemma ShapesPlain(target: Expr, op: Infix, n: nat)
    requires PlainExpr(target)
    ensures PlainExpr(NullEquality(target)) && PlainExpr(ValueEquality(target, n))
    ensures PlainExpr(NumberComparison(target, op, n)) && PlainExpr(TextComparison(target, op, n))
  {
    hide PlainExpr, TypeIs;
    TypePlain(target, "array");
    TypePlain(target, "number");
    TypePlain(target, "string");
    LeavesPlain(n);
    PostPlain(target, IsNull);
    BinPlain(EqOp, target, Post(Atom(Quoted("null")), AsJsonb));
    BinPlain(OrOp, NullEquality(target).e.l, NullEquality(target).e.r);
    var either := ValueEquality(target, n).e;
    BinPlain(EqOp, target, JsonOperand(n));
    BinPlain(ContainsOp, target, JsonOperand(n));
    BinPlain(AndOp, either.r.e.l, either.r.e.r);
    BinPlain(OrOp, either.l, either.r);
    var number := NumberComparison(target, op, n).e;
    PostPlain(Paren(target), AsNumeric);
    BinPlain(op, number.r.l, number.r.r);
    BinPlain(AndOp, number.l, number.r);
    var text := TextComparison(target, op, n).e;
    BinPlain(PathTextOp, target, Atom(Quoted("{}")));
    PostPlain(text.r.l.e, CollateC);
    BinPlain(op, text.r.l, text.r.r);
    BinPlain(AndOp, text.l, text.r);
  }

  lemma BinPlain(op: Infix, l: Expr, r: Expr)
    requires PlainExpr(l) && PlainExpr(r)
    ensures PlainExpr(Bin(op, l, r)) && PlainExpr(Paren(Bin(op, l, r)))
  {
  }

  lemma PostPlain(x: Expr, post: Postfix)
    requires PlainExpr(x) || (x.Paren? && PlainExpr(x.e))
    ensures PlainExpr(Post(x, post))
  {
  }

  lemma LeavesPlain(n: nat)
    ensures PlainExpr(JsonOperand(n)) && PlainExpr(Post(Atom(Quoted("null")), AsJsonb)) && PlainExpr(Atom(Quoted("{}")))
    ensures PlainExpr(Post(Atom(Param(n)), AsNumeric)) && PlainExpr(Post(Atom(Param(n)), CollateC))
  {
  }

  lemma TypePlain(target: Expr, name: string)
    requires PlainExpr(target) && PlainText(name)
    ensures PlainExpr(TypeIs(target, name))
  {
  }

  lemma ComparePlain(name: string, op: string, v: Value, n: nat)
    requires IsComparison(op) && CompileCompare(name, op, v, n).Ok?
    ensures |CompileCompare(name, op, v, n).value.conditions| == 1
    ensures AllPlain(CompileCompare(name, op, v, n).value.conditions)
  {
    hide FieldExpr, NumberComparison, TextComparison;
    FieldPlain(name);
    ShapesPlain(FieldExpr(name), ComparisonOp(op), n);
  }

  lemma {:induction false} OptionsPlain(name: string, options: seq<Value>, n: nat)
    requires CompileOptions(name, options, n).Ok?
    ensures AllPlain(CompileOptions(name, options, n).value.conditions)
  {
    hide CompileEquals;
    if options != [] {
      EqualsPlain(name, options[0], n);
      OptionsPlain(name, options[1..], n + |CompileEquals(name, options[0], n).value.params|);
    }
  }

  lemma ExistsPlain(name: string)
    requires ExistsExpr(name).Ok?
    ensures PlainExpr(ExistsExpr(name).value) <==> OperatorNamePlain(name, "$exists")
  {
    hide FieldExpr;
    if |Split(name)| > 1 {
      FieldPlain(name);
    }
  }

  lemma OperatorPlain(name: string, op: string, v: Value, n: nat)
    requires CompileOperator(name, op, v, n).Ok?
    ensures AllPlain(CompileOperator(name, op, v, n).value.conditions) <==> OperatorNamePlain(name, op)
  {
    hide CompileCompare, CompileOptions, ExistsExpr, Chain;
    if IsComparison(op) {
      ComparePlain(name, op, v, n);
    } else if op == "$in" {
      OptionsPlain(name, v.items, n);
      if v.items != [] {
        ChainPlain(OrOp, CompileOptions(name, v.items, n).value.conditions);
      }
    } else {
      ExistsPlain(name);
      var test := ExistsExpr(name).value;
      AlonePlain(test);
      AlonePlain(Not(Paren(test)));
    }
  }

  lemma AlonePlain(e: Expr)
    ensures AllPlain([e]) <==> PlainExpr(e)
  {
    assert e in [e];
  }

  predicate SpecNamesPlain(name: string, spec: seq<(string, Value)>) {
    forall x | x in spec :: OperatorNamePlain(name, x.0)
  }

  lemma {:induction false} OperatorsPlain(name: string, spec: seq<(string, Value)>, n: nat)
    requires CompileOperators(name, spec, n).Ok?
    ensures AllPlain(CompileOperators(name, spec, n).value.conditions) <==> SpecNamesPlain(name, spec)
  {
    hide CompileOperator, OperatorNamePlain, PlainExpr;
    if spec != [] {
      var head := CompileOperator(name, spec[0].0, spec[0].1, n).value;
      OperatorPlain(name, spec[0].0, spec[0].1, n);
      OperatorsPlain(name, spec[1..], n + |head.params|);
      assert spec == [spec[0]] + spec[1..];
      PlainBoth(head.conditions, CompileOperators(name, spec[1..], n + |head.params|).value.conditions);
    }
  }

  lemma PlainBoth(a: seq<Expr>, b: seq<Expr>)
    ensures AllPlain(a + b) <==> AllPlain(a) && AllPlain(b)
  {
    hide PlainExpr;
    assert forall e | e in a :: e in a + b;
    assert forall e | e in b :: e in a + b;
  }

  lemma {:induction false} ClausePlain(c: Clause, n: nat)
    requires CompileClause(c, n).Ok?
    ensures AllPlain(CompileClause(c, n).value.conditions) <==> ClauseNamesPlain(c)
    decreases c, 1
  {
    hide CompileParts, CompileEquals, CompileOperators, Chain, NamesPlain;
    match c
    case All(parts) =>
      PartsPlain(parts, n);
      AlonePlain(CompileClause(c, n).value.conditions[0]);
      if parts != [] {
        ChainPlain(AndOp, Flatten(CompileParts(parts, n).value.conditions));
      }
    case Any(parts) =>
      PartsPlain(parts, n);
      AlonePlain(CompileClause(c, n).value.conditions[0]);
      if parts != [] {
        ChainPlain(OrOp, AndEach(CompileParts(parts, n).value.conditions));
      }
    case Equal(name, v) =>
      EqualsPlain(name, v, n);
    case Braces(name, entries) =>
      if IsOperatorSpec(entries) {
        OperatorsPlain(name, entries, n);
      } else {
        EqualsPlain(name, Dict(ToDict(entries)), n);
      }
  }

  predicate PartsNamesPlain(parts: seq<Filter>) {
    forall f | f in parts :: NamesPlain(f)
  }

  lemma {:induction false} PartsPlain(parts: seq<Filter>, n: nat)
    requires CompileParts(parts, n).Ok?
    ensures AllPlain(Flatten(CompileParts(parts, n).value.conditions)) <==> PartsNamesPlain(parts)
    ensures AllPlain(AndEach(CompileParts(parts, n).value.conditions)) <==> PartsNamesPlain(parts)
    decreases parts, 0
  {
    hide CompileFilter, NamesPlain, PlainExpr, Chain;
    if parts != [] {
      var head := CompileFilter(parts[0], n).value;
      var tail := CompileParts(parts[1..], n + |head.params|).value;
      FilterPlain(parts[0], n);
      PartsPlain(parts[1..], n + |head.params|);
      assert parts == [parts[0]] + parts[1..];
      assert CompileParts(parts, n).value.conditions == [head.conditions] + tail.conditions;
      OnePartPlain(head.conditions, tail.conditions);
    }
  }

  lemma OnePartPlain(conditions: seq<Expr>, ess: seq<seq<Expr>>)
    requires conditions != [] && NoneEmpty(ess)
    ensures AllPlain(Flatten([conditions] + ess)) <==> AllPlain(conditions) && AllPlain(Flatten(ess))
    ensures AllPlain(AndEach([conditions] + ess)) <==> AllPlain(conditions) && AllPlain(AndEach(ess))
  {
    hide PlainExpr, Chain, AllPlain;
    assert ([conditions] + ess)[1..] == ess;
    PlainBoth(conditions, Flatten(ess));
    PlainBoth([Chain(AndOp, conditions)], AndEach(ess));
    ChainPlain(AndOp, conditions);
    AlonePlain(Chain(AndOp, conditions));
  }

  predicate ClausesNamesPlain(cs: seq<Clause>) {
    forall c | c in cs :: ClauseNamesPlain(c)
  }

  lemma {:induction false} ClausesPlain(cs: seq<Clause>, n: nat)
    requires CompileClauses(cs, n).Ok?
    ensures AllPlain(CompileClauses(cs, n).value.conditions) <==> ClausesNamesPlain(cs)
    decreases cs, 0
  {
    hide CompileClause, ClauseNamesPlain, PlainExpr;
    if cs != [] {
      var head := CompileClause(cs[0], n).value;
      ClausePlain(cs[0], n);
      ClausesPlain(cs[1..], n + |head.params|);
      assert cs == [cs[0]] + cs[1..];
      PlainBoth(head.conditions, CompileClauses(cs[1..], n + |head.params|).value.conditions);
    }
  }

  lemma {:induction false} FilterPlain(f: Filter, n: nat)
    requires CompileFilter(f, n).Ok?
    ensures AllPlain(CompileFilter(f, n).value.conditions) <==> NamesPlain(f)
    decreases f, 0
  {
    ClausesPlain(f.clauses, n);
    if f.clauses == [] {
      AlonePlain(Atom(Truth(true)));
    }
  }

  /** The text of a compiled filter is read as the tokens meant exactly when no name it writes unchecked, that
      is, no undotted `$exists` name, has a quote or U+0000 in it. */
  lemma TextLexes(f: Filter, n: nat, c: Compiled<Expr>)
    requires CompileFilter(f, n) == Ok(c)
    ensures Lex(Render(TextOf(c))) == Some(TextOf(c)) <==> NamesPlain(f)
  {
    hide CompileFilter, NamesPlain, Lex, Render, Print, Chain;
    FilterPlain(f, n);
    ChainPlain(AndOp, c.conditions);
    PrintedTokens(Chain(AndOp, c.conditions));
    LexInvertsRender(TextOf(c));
  }

  /** A filter in the domain of the main result writes no such name. */
  lemma {:induction false} DomainNamesPlain(doc: map<string, Value>, f: Filter)
    requires FilterDomain(doc, f)
    ensures NamesPlain(f)
    decreases f, 0
  {
    forall c | c in f.clauses
      ensures ClauseNamesPlain(c)
    {
      ClauseDomainNamesPlain(doc, c);
    }
  }

  lemma {:induction false} ClauseDomainNamesPlain(doc: map<string, Value>, c: Clause)
    requires ClauseDomain(doc, c)
    ensures ClauseNamesPlain(c)
    decreases c, 1
  {
    if c.All? || c.Any? {
      forall f | f in c.parts
        ensures NamesPlain(f)
      {
        DomainNamesPlain(doc, f);
      }
    }
  }
}
