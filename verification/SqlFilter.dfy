/** The filter vocabulary and its compiler into SQL: `Query`, `field`, `_equals`, `_compare`,
    `_operators` and `where`. `Compile*` say what is built; the `Query` methods build it. */
module SqlFilter {
  import opened Lib
  import opened Datetimes
  import opened Values
  import opened SqlGrammar
  import opened SqlLiterals
  import opened SqlEval

  /** A filter is a list of clauses, all of which must hold. */
  datatype Filter = Filter(clauses: seq<Clause>)

  datatype Clause =
    | All(parts: seq<Filter>)                                 // {"$and": [...]}
    | Any(parts: seq<Filter>)                                 // {"$or": [...]}
    | Equal(name: string, operand: Value)                     // {name: value}, value not a dict
    | Braces(name: string, entries: seq<(string, Value)>)     // {name: {...}}

  /** `isinstance(value, dict) and value and all(k.startswith("$") for k in value)`. */
  predicate IsOperatorSpec(entries: seq<(string, Value)>) {
    entries != [] && forall e | e in entries :: StartsWithDollar(e.0)
  }

  predicate StartsWithDollar(key: string) {
    key != "" && key[0] == '$'
  }

  function ToDict(entries: seq<(string, Value)>): map<string, Value> {
    if entries == [] then map[]
    else ToDict(entries[..|entries| - 1])[entries[|entries| - 1].0 := entries[|entries| - 1].1]
  }

  // ---- names -----------------------------------------------------------------------------------

  predicate IsNameStart(c: char) {
    'A' <= c <= 'Z' || 'a' <= c <= 'z' || c == '_'
  }

  predicate IsWord(word: string) {
    word != "" && IsNameStart(word[0]) && forall i | 1 <= i < |word| :: IsNameStart(word[i]) || IsDigit(word[i])
  }

  /** The name without one final newline. */
  function Core(name: string): (core: string)
    ensures name == core || name == core + "\n"
  {
    if name != "" && name[|name| - 1] == '\n' then name[..|name| - 1] else name
  }

  /** `IDENTIFIER`; the `$` of that pattern also allows one final newline. */
  predicate IsIdentifier(name: string) {
    IsWord(Core(name)) && |Core(name)| <= 63
  }

  /** `name.split(".")`. */
  function Split(name: string): (parts: seq<string>)
    ensures parts != []
  {
    SplitOn(name, '.')
  }

  /** A part that an array literal reads as it is written: not NULL in any case, and no newline at its end. */
  predicate PlainPart(part: string) {
    Lower(part) != "null" && Core(part) == part
  }

  /** The field of this name is read where the name says. */
  predicate ReadsPath(name: string) {
    |Split(name)| == 1 || forall part | part in Split(name) :: PlainPart(part)
  }

  /** The JSONB value at a dotted name. */
  function Field(name: string): (r: Result<Expr>)
    ensures r.Ok? <==> forall part | part in Split(name) :: IsIdentifier(part)
    ensures r.Ok? ==> r.value == FieldExpr(name)
  {
    if forall part | part in Split(name) :: IsIdentifier(part) then Ok(FieldExpr(name)) else Err
  }

  function FieldExpr(name: string): Expr {
    var parts := Split(name);
    if |parts| == 1 then Bin(ArrowOp, Atom(DocColumn), Atom(Quoted(name)))
    else Bin(PathOp, Atom(DocColumn), Atom(Quoted(PathLiteral(parts))))
  }

  // ---- what is compiled ----------------------------------------------------------------------------

  /** The AND-ed conditions a filter contributes, and the parameters they bind, in order. */
  datatype Compiled<T> = Compiled(conditions: seq<T>, params: seq<Bound>)

  function JsonOperand(n: nat): Expr {
    Post(Atom(Param(n)), AsJsonb)
  }

  function TypeIs(target: Expr, name: string): Expr {
    Bin(EqOp, Typeof(target), Atom(Quoted(name)))
  }

  function NullEquality(target: Expr): Expr {
    Paren(Bin(OrOp, Post(target, IsNull), Bin(EqOp, target, Post(Atom(Quoted("null")), AsJsonb))))
  }

  function ValueEquality(target: Expr, n: nat): Expr {
    Paren(Bin(OrOp,
              Bin(EqOp, target, JsonOperand(n)),
              Paren(Bin(AndOp, TypeIs(target, "array"), Bin(ContainsOp, target, JsonOperand(n))))))
  }

  function NumberComparison(target: Expr, op: Infix, n: nat): Expr {
    Paren(Bin(AndOp, TypeIs(target, "number"),
              Bin(op, Post(Paren(target), AsNumeric), Post(Atom(Param(n)), AsNumeric))))
  }

  function TextComparison(target: Expr, op: Infix, n: nat): Expr {
    Paren(Bin(AndOp, TypeIs(target, "string"),
              Bin(op, Post(Paren(Bin(PathTextOp, target, Atom(Quoted("{}")))), CollateC),
                  Post(Atom(Param(n)), CollateC))))
  }

  function CompileEquals(name: string, v: Value, n: nat): (r: Result<Compiled<Expr>>)
    ensures r.Ok? ==> |r.value.conditions| == 1
  {
    var target :- Field(name);
    if v.Nil? then Ok(Compiled([NullEquality(target)], []))
    else Ok(Compiled([ValueEquality(target, n)], [BoundJson(Prepare(v))]))
  }

  predicate IsComparison(op: string) {
    op == "$lt" || op == "$lte" || op == "$gt"
  }

  function ComparisonOp(op: string): Infix
    requires IsComparison(op)
  {
    if op == "$lt" then LtOp else if op == "$lte" then LeOp else GtOp
  }

  function CompileCompare(name: string, op: string, v: Value, n: nat): Result<Compiled<Expr>>
    requires IsComparison(op)
  {
    var target :- Field(name);
    match v
    case Num(x) => Ok(Compiled([NumberComparison(target, ComparisonOp(op), n)], [BoundNum(x)]))
    case Text(s) => Ok(Compiled([TextComparison(target, ComparisonOp(op), n)], [BoundText(s)]))
    case Time(t) => Ok(Compiled([TextComparison(target, ComparisonOp(op), n)], [BoundText(Encode(t))]))
    case _ => Err
  }

  function CompileOptions(name: string, options: seq<Value>, n: nat): (r: Result<Compiled<Expr>>)
    ensures r.Ok? ==> |r.value.conditions| == |options|
  {
    if options == [] then Ok(Compiled([], []))
    else
      var head :- CompileEquals(name, options[0], n);
      var tail :- CompileOptions(name, options[1..], n + |head.params|);
      Ok(Compiled(head.conditions + tail.conditions, head.params + tail.params))
  }

  /** Python truthiness of an operand. */
  predicate Truthy(v: Value) {
    match v
    case Nil => false
    case Bool(b) => b
    case Num(x) => x != 0.0
    case Text(s) => s != ""
    case Time(_) => true
    case List(items) => items != []
    case Dict(fields) => fields != map[]
  }

  /** The false operands: None, False, zero, and what is empty. */
  lemma FalseOperands(v: Value)
    ensures !Truthy(v) <==>
      v == Nil || v == Bool(false) || v == Num(0.0) || v == Text("") || v == List([]) || v == Dict(map[])
  {
  }

  function ExistsExpr(name: string): Result<Expr> {
    if |Split(name)| == 1 then Ok(Bin(HasKeyOp, Atom(DocColumn), Atom(Quoted(name))))
    else
      var target :- Field(name);
      Ok(Paren(Post(target, IsNotNull)))
  }

  function CompileOperator(name: string, op: string, v: Value, n: nat): (r: Result<Compiled<Expr>>)
    ensures r.Ok? ==> |r.value.conditions| == 1
  {
    if IsComparison(op) then CompileCompare(name, op, v, n)
    else if op == "$in" then
      if !v.List? then Err else
      var options :- CompileOptions(name, v.items, n);
      Ok(Compiled([if v.items == [] then Atom(Truth(false)) else Paren(Chain(OrOp, options.conditions))],
                  options.params))
    else if op == "$exists" then
      var exists_ :- ExistsExpr(name);
      Ok(Compiled([if Truthy(v) then exists_ else Not(Paren(exists_))], []))
    else Err
  }

  function CompileOperators(name: string, spec: seq<(string, Value)>, n: nat): (r: Result<Compiled<Expr>>)
    ensures r.Ok? ==> |r.value.conditions| == |spec|
  {
    if spec == [] then Ok(Compiled([], []))
    else
      var head :- CompileOperator(name, spec[0].0, spec[0].1, n);
      var tail :- CompileOperators(name, spec[1..], n + |head.params|);
      Ok(Compiled(head.conditions + tail.conditions, head.params + tail.params))
  }

  function CompileClause(c: Clause, n: nat): (r: Result<Compiled<Expr>>)
    ensures r.Ok? ==> r.value.conditions != []
    decreases c, 1
  {
    match c
    case All(parts) =>
      var ps :- CompileParts(parts, n);
      Ok(Compiled([if parts == [] then Atom(Truth(true)) else Paren(Chain(AndOp, Flatten(ps.conditions)))], ps.params))
    case Any(parts) =>
      var ps :- CompileParts(parts, n);
      Ok(Compiled([if parts == [] then Atom(Truth(true)) else Paren(Chain(OrOp, AndEach(ps.conditions)))], ps.params))
    case Equal(name, v) => CompileEquals(name, v, n)
    case Braces(name, entries) =>
      if IsOperatorSpec(entries) then CompileOperators(name, entries, n)
      else CompileEquals(name, Dict(ToDict(entries)), n)
  }

  /** Each part's conditions, kept apart, and all their parameters. */
  function CompileParts(parts: seq<Filter>, n: nat): (r: Result<Compiled<seq<Expr>>>)
    ensures r.Ok? ==> |r.value.conditions| == |parts| && NoneEmpty(r.value.conditions)
    decreases parts, 0
  {
    if parts == [] then Ok(Compiled([], []))
    else
      var head :- CompileFilter(parts[0], n);
      var tail :- CompileParts(parts[1..], n + |head.params|);
      Ok(Compiled([head.conditions] + tail.conditions, head.params + tail.params))
  }

  function CompileClauses(cs: seq<Clause>, n: nat): (r: Result<Compiled<Expr>>)
    ensures r.Ok? && cs != [] ==> r.value.conditions != []
    decreases cs, 0
  {
    if cs == [] then Ok(Compiled([], []))
    else
      var head :- CompileClause(cs[0], n);
      var tail :- CompileClauses(cs[1..], n + |head.params|);
      Ok(Compiled(head.conditions + tail.conditions, head.params + tail.params))
  }

  /** `where(query, filters)` when the next parameter is number `n`. */
  function CompileFilter(f: Filter, n: nat): (r: Result<Compiled<Expr>>)
    ensures r.Ok? ==> r.value.conditions != []
    decreases f, 0
  {
    var c :- CompileClauses(f.clauses, n);
    Ok(if c.conditions == [] then Compiled([Atom(Truth(true))], c.params) else c)
  }

  predicate NoneEmpty(ess: seq<seq<Expr>>) {
    forall i | 0 <= i < |ess| :: |ess[i]| > 0
  }

  function Flatten(ess: seq<seq<Expr>>): (r: seq<Expr>)
    ensures NoneEmpty(ess) && ess != [] ==> r != []
  {
    if ess == [] then [] else ess[0] + Flatten(ess[1..])
  }

  /** One AND chain per part. */
  function AndEach(ess: seq<seq<Expr>>): (r: seq<Expr>)
    requires NoneEmpty(ess)
    ensures |r| == |ess|
    ensures forall i | 0 <= i < |ess| :: r[i] == Chain(AndOp, ess[i])
  {
    if ess == [] then [] else [Chain(AndOp, ess[0])] + AndEach(ess[1..])
  }

  // ---- the text of each form ------------------------------------------------------------------

  function Wrap(ts: seq<Token>): seq<Token> {
    [LP] + ts + [RP]
  }

  function Op(l: seq<Token>, op: Infix, r: seq<Token>): seq<Token> {
    l + ([TIn(op)] + r)
  }

  /** `jsonb_typeof(target) = 'name'`. */
  function TypeIsText(target: seq<Token>, name: string): seq<Token> {
    Op([TTypeof, LP] + target + [RP], EqOp, [TLeaf(Quoted(name))])
  }

  lemma PrintTypeIs(target: Expr, name: string)
    ensures Print(TypeIs(target, name)) == TypeIsText(Print(target), name)
  {
    assert Print(Typeof(target)) == [TTypeof, LP] + Print(target) + [RP];
  }

  lemma PrintPost(leaf: Leaf, post: Postfix)
    ensures Print(Post(Atom(leaf), post)) == [TLeaf(leaf), TPost(post)]
  {
  }

  lemma PrintTruth(b: bool)
    ensures Print(Chain(AndOp, [Atom(Truth(b))])) == [TLeaf(Truth(b))]
  {
  }

  lemma PrintParenChain(op: Infix, es: seq<Expr>)
    requires es != []
    ensures Print(Chain(AndOp, [Paren(Chain(op, es))])) == Wrap(JoinText(op, PrintAll(es)))
  {
    JoinTextIsChain(op, es);
  }

  lemma PrintNullEquality(target: Expr)
    ensures Print(NullEquality(target))
         == Wrap(Op(Print(target) + [TPost(IsNull)], OrOp,
                    Op(Print(target), EqOp, [TLeaf(Quoted("null")), TPost(AsJsonb)])))
  {
    var either := NullEquality(target).e;
    PrintPost(Quoted("null"), AsJsonb);
    assert Print(either.l) == Print(target) + [TPost(IsNull)];
    assert Print(either) == Op(Print(either.l), OrOp, Print(either.r));
  }

  lemma PrintValueEquality(target: Expr, n: nat)
    ensures var t, operand := Print(target), [TLeaf(Param(n)), TPost(AsJsonb)];
      Print(ValueEquality(target, n))
        == Wrap(Op(Op(t, EqOp, operand), OrOp,
                   Wrap(Op(TypeIsText(t, "array"), AndOp, Op(t, ContainsOp, operand)))))
  {
    var either := ValueEquality(target, n).e;
    var both := either.r.e;
    PrintPost(Param(n), AsJsonb);
    PrintTypeIs(target, "array");
    assert Print(both) == Op(Print(both.l), AndOp, Print(both.r));
    assert Print(either.r) == Wrap(Print(both));
    assert Print(either) == Op(Print(either.l), OrOp, Print(either.r));
  }

  lemma PrintNumberComparison(target: Expr, op: Infix, n: nat)
    ensures Print(NumberComparison(target, op, n))
         == Wrap(Op(TypeIsText(Print(target), "number"), AndOp,
                    Op(Wrap(Print(target)) + [TPost(AsNumeric)], op, [TLeaf(Param(n)), TPost(AsNumeric)])))
  {
    var both := NumberComparison(target, op, n).e;
    PrintTypeIs(target, "number");
    PrintPost(Param(n), AsNumeric);
    assert Print(both.r.l) == Print(Paren(target)) + [TPost(AsNumeric)];
    assert Print(both.r) == Op(Print(both.r.l), op, Print(both.r.r));
    assert Print(both) == Op(Print(both.l), AndOp, Print(both.r));
  }

  lemma PrintTextComparison(target: Expr, op: Infix, n: nat)
    ensures Print(TextComparison(target, op, n))
         == Wrap(Op(TypeIsText(Print(target), "string"), AndOp,
                    Op(Wrap(Op(Print(target), PathTextOp, [TLeaf(Quoted("{}"))])) + [TPost(CollateC)], op,
                       [TLeaf(Param(n)), TPost(CollateC)])))
  {
    var both := TextComparison(target, op, n).e;
    PrintTypeIs(target, "string");
    PrintPost(Param(n), CollateC);
    var text := Bin(PathTextOp, target, Atom(Quoted("{}")));
    assert Print(text) == Op(Print(target), PathTextOp, [TLeaf(Quoted("{}"))]);
    assert Print(both.r.l) == Print(Paren(text)) + [TPost(CollateC)];
    assert Print(both.r) == Op(Print(both.r.l), op, Print(both.r.r));
    assert Print(both) == Op(Print(both.l), AndOp, Print(both.r));
  }

  // ---- compiling one item at a time -----------------------------------------------------------

  function Joined<T>(a: Compiled<T>, b: Compiled<T>): Compiled<T> {
    Compiled(a.conditions + b.conditions, a.params + b.params)
  }

  /** `done`, followed by what is still to be compiled. */
  function After<T>(done: Compiled<T>, rest: Result<Compiled<T>>): Result<Compiled<T>> {
    if rest.Err? then Err else Ok(Joined(done, rest.value))
  }

  lemma NothingBefore<T>(rest: Result<Compiled<T>>)
    ensures After(Compiled([], []), rest) == rest
  {
    if rest.Ok? {
      assert [] + rest.value.conditions == rest.value.conditions && [] + rest.value.params == rest.value.params;
    }
  }

  lemma AfterNothing<T>(done: Compiled<T>)
    ensures After(done, Ok(Compiled([], []))) == Ok(done)
  {
    assert done.conditions + [] == done.conditions && done.params + [] == done.params;
  }

  lemma AfterAssociates<T>(done: Compiled<T>, head: Compiled<T>, rest: Result<Compiled<T>>)
    ensures After(done, After(head, rest)) == After(Joined(done, head), rest)
  {
    if rest.Ok? {
      assert done.conditions + (head.conditions + rest.value.conditions)
          == done.conditions + head.conditions + rest.value.conditions;
      assert done.params + (head.params + rest.value.params) == done.params + head.params + rest.value.params;
    }
  }

  lemma CompileOptionsStep(name: string, options: seq<Value>, i: nat, n: nat, done: Compiled<Expr>)
    requires i < |options|
    ensures var head := CompileEquals(name, options[i], n);
      After(done, CompileOptions(name, options[i..], n))
        == if head.Err? then Err
           else After(Joined(done, head.value), CompileOptions(name, options[i + 1..], n + |head.value.params|))
  {
    hide CompileEquals;
    var head := CompileEquals(name, options[i], n);
    assert options[i..][0] == options[i] && options[i..][1..] == options[i + 1..];
    if head.Ok? {
      AfterAssociates(done, head.value, CompileOptions(name, options[i + 1..], n + |head.value.params|));
    }
  }

  lemma CompileOperatorsStep(name: string, spec: seq<(string, Value)>, i: nat, n: nat, done: Compiled<Expr>)
    requires i < |spec|
    ensures var head := CompileOperator(name, spec[i].0, spec[i].1, n);
      After(done, CompileOperators(name, spec[i..], n))
        == if head.Err? then Err
           else After(Joined(done, head.value), CompileOperators(name, spec[i + 1..], n + |head.value.params|))
  {
    hide CompileOperator;
    var head := CompileOperator(name, spec[i].0, spec[i].1, n);
    assert spec[i..][0] == spec[i] && spec[i..][1..] == spec[i + 1..];
    if head.Ok? {
      AfterAssociates(done, head.value, CompileOperators(name, spec[i + 1..], n + |head.value.params|));
    }
  }

  lemma CompileClausesStep(cs: seq<Clause>, i: nat, n: nat, done: Compiled<Expr>)
    requires i < |cs|
    ensures var head := CompileClause(cs[i], n);
      After(done, CompileClauses(cs[i..], n))
        == if head.Err? then Err
           else After(Joined(done, head.value), CompileClauses(cs[i + 1..], n + |head.value.params|))
  {
    hide CompileClause;
    var head := CompileClause(cs[i], n);
    assert cs[i..][0] == cs[i] && cs[i..][1..] == cs[i + 1..];
    if head.Ok? {
      AfterAssociates(done, head.value, CompileClauses(cs[i + 1..], n + |head.value.params|));
    }
  }

  lemma CompilePartsStep(parts: seq<Filter>, i: nat, n: nat, done: Compiled<seq<Expr>>)
    requires i < |parts|
    ensures var head := CompileFilter(parts[i], n);
      After(done, CompileParts(parts[i..], n))
        == if head.Err? then Err
           else After(Joined(done, Compiled([head.value.conditions], head.value.params)),
                      CompileParts(parts[i + 1..], n + |head.value.params|))
  {
    hide CompileFilter;
    var head := CompileFilter(parts[i], n);
    assert parts[i..][0] == parts[i] && parts[i..][1..] == parts[i + 1..];
    if head.Ok? {
      AfterAssociates(done, Compiled([head.value.conditions], head.value.params),
                      CompileParts(parts[i + 1..], n + |head.value.params|));
    }
  }

  // ---- the compiler itself ---------------------------------------------------------------------------

  /** The text of one compiled filter. */
  function TextOf(c: Compiled<Expr>): seq<Token>
    requires c.conditions != []
  {
    Print(Chain(AndOp, c.conditions))
  }

  lemma PrintAllNone()
    ensures PrintAll([]) == [] && AndEach([]) == []
  {
  }

  lemma OneMoreText(es: seq<Expr>, c: Compiled<Expr>)
    requires |c.conditions| == 1
    ensures PrintAll(es + c.conditions) == PrintAll(es) + [TextOf(c)]
  {
  }

  lemma NoOptions(name: string, options: seq<Value>, n: nat)
    ensures CompileOptions(name, options[|options|..], n) == Ok(Compiled([], []))
  {
  }

  lemma NoOperators(name: string, spec: seq<(string, Value)>, n: nat)
    ensures CompileOperators(name, spec[|spec|..], n) == Ok(Compiled([], []))
  {
  }

  lemma NoParts(parts: seq<Filter>, n: nat)
    ensures CompileParts(parts[|parts|..], n) == Ok(Compiled([], []))
  {
  }

  lemma NoClauses(cs: seq<Clause>, n: nat)
    ensures CompileClauses(cs[|cs|..], n) == Ok(Compiled([], []))
  {
  }

  /** One more part's text. */
  lemma AndEachOneMore(ess: seq<seq<Expr>>, es: seq<Expr>)
    requires NoneEmpty(ess) && es != []
    ensures NoneEmpty(ess + [es]) && PrintAll(AndEach(ess + [es])) == PrintAll(AndEach(ess)) + [Print(Chain(AndOp, es))]
  {
  }

  /** Collects bound parameters while a filter is compiled. */
  class Query {
    var params: seq<Bound>
    var next: nat
    ghost const first: nat

    ghost predicate Valid()
      reads this
    {
      next == first + |params|
    }

    constructor (firstParam: nat)
      ensures Valid() && params == [] && next == firstParam && first == firstParam
    {
      params, next, first := [], firstParam, firstParam;
    }

    method Bind(v: Bound) returns (placeholder: Leaf)
      requires Valid()
      modifies this
      ensures Valid() && params == old(params) + [v]
      ensures placeholder == Param(old(next))
    {
      params := params + [v];
      placeholder := Param(next);
      next := next + 1;
    }

    /** `r` is the text, and the parameters bound since `before` are the ones, that `c` describes. */
    ghost predicate Built(before: seq<Bound>, c: Result<Compiled<Expr>>, r: Result<seq<Token>>)
      reads this
    {
      && Valid()
      && r.Ok? == c.Ok?
      && (c.Ok? ==> params == before + c.value.params && next == first + |before| + |c.value.params|)
      && (c.Ok? && c.value.conditions != [] ==> r.value == TextOf(c.value))
    }

    method Equals(name: string, v: Value) returns (r: Result<seq<Token>>)
      requires Valid()
      modifies this
      ensures Built(old(params), CompileEquals(name, v, old(next)), r)
    {
      var target := Field(name);
      if target.Err? {
        return Err;
      }
      var t := Print(target.value);
      if v.Nil? {
        PrintNullEquality(target.value);
        return Ok(Wrap(Op(t + [TPost(IsNull)], OrOp, Op(t, EqOp, [TLeaf(Quoted("null")), TPost(AsJsonb)]))));
      }
      var p := Bind(BoundJson(Prepare(v)));
      var operand := [TLeaf(p), TPost(AsJsonb)];
      PrintValueEquality(target.value, old(next));
      r := Ok(Wrap(Op(Op(t, EqOp, operand), OrOp,
                      Wrap(Op(TypeIsText(t, "array"), AndOp, Op(t, ContainsOp, operand))))));
    }

    method Compare(name: string, op: string, v: Value) returns (r: Result<seq<Token>>)
      requires Valid() && IsComparison(op)
      modifies this
      ensures Built(old(params), CompileCompare(name, op, v, old(next)), r)
    {
      var target := Field(name);
      if target.Err? || !(v.Num? || v.Text? || v.Time?) {
        return Err;
      }
      var t := Print(target.value);
      if v.Num? {
        var p := Bind(BoundNum(v.n));
        PrintNumberComparison(target.value, ComparisonOp(op), old(next));
        return Ok(Wrap(Op(TypeIsText(t, "number"), AndOp,
                          Op(Wrap(t) + [TPost(AsNumeric)], ComparisonOp(op), [TLeaf(p), TPost(AsNumeric)]))));
      }
      var text := if v.Time? then Encode(v.t) else v.s;
      var p := Bind(BoundText(text));
      PrintTextComparison(target.value, ComparisonOp(op), old(next));
      r := Ok(Wrap(Op(TypeIsText(t, "string"), AndOp,
                      Op(Wrap(Op(t, PathTextOp, [TLeaf(Quoted("{}"))])) + [TPost(CollateC)], ComparisonOp(op),
                         [TLeaf(p), TPost(CollateC)]))));
    }

    /** The equalities of an `$in`, one per option. */
    method Options(name: string, options: seq<Value>) returns (r: Result<seq<seq<Token>>>)
      requires Valid()
      modifies this
      ensures Valid() && r.Ok? == CompileOptions(name, options, old(next)).Ok?
      ensures r.Ok? ==>
        var c := CompileOptions(name, options, old(next)).value;
        params == old(params) + c.params && r.value == PrintAll(c.conditions)
    {
      hide CompileEquals, CompileOptions, Print, PrintAll, Chain;
      PrintAllNone();
      ghost var whole := CompileOptions(name, options, next);
      ghost var done: Compiled<Expr> := Compiled([], []);
      var texts: seq<seq<Token>> := [];
      var i := 0;
      NothingBefore(whole);
      assert options[0..] == options;
      while i < |options|
        invariant 0 <= i <= |options| && Valid()
        invariant params == old(params) + done.params
        invariant |done.conditions| == i && texts == PrintAll(done.conditions)
        invariant whole == After(done, CompileOptions(name, options[i..], next))
      {
        ghost var head := CompileEquals(name, options[i], next);
        CompileOptionsStep(name, options, i, next, done);
        var text := Equals(name, options[i]);
        if text.Err? {
          return Err;
        }
        OneMoreText(done.conditions, head.value);
        texts := texts + [text.value];
        done := Joined(done, head.value);
        i := i + 1;
      }
      NoOptions(name, options, next);
      AfterNothing(done);
      r := Ok(texts);
    }

    method In(name: string, options: seq<Value>) returns (r: Result<seq<Token>>)
      requires Valid()
      modifies this
      ensures Built(old(params), CompileOperator(name, "$in", List(options), old(next)), r)
    {
      var texts := Options(name, options);
      if texts.Err? {
        return Err;
      }
      if options == [] {
        PrintTruth(false);
        return Ok([TLeaf(Truth(false))]);
      }
      PrintParenChain(OrOp, CompileOptions(name, options, old(next)).value.conditions);
      r := Ok(Wrap(JoinText(OrOp, texts.value)));
    }

    method Operator(name: string, op: string, operand: Value) returns (r: Result<seq<Token>>)
      requires Valid()
      modifies this
      ensures Built(old(params), CompileOperator(name, op, operand, old(next)), r)
    {
      if IsComparison(op) {
        r := Compare(name, op, operand);
      } else if op == "$in" && operand.List? {
        r := In(name, operand.items);
      } else if op == "$exists" {
        var e := ExistsExpr(name);
        if e.Err? {
          return Err;
        }
        r := Ok(if Truthy(operand) then Print(e.value) else [TNot] + Wrap(Print(e.value)));
        assert Print(Not(Paren(e.value))) == [TNot] + Wrap(Print(e.value));
      } else {
        r := Err;
      }
    }

    method Operators(name: string, spec: seq<(string, Value)>) returns (r: Result<seq<Token>>)
      requires Valid()
      modifies this
      ensures Built(old(params), CompileOperators(name, spec, old(next)), r)
    {
      hide CompileOperator, CompileOperators, Print, PrintAll, Chain;
      PrintAllNone();
      ghost var whole := CompileOperators(name, spec, next);
      ghost var done: Compiled<Expr> := Compiled([], []);
      var texts: seq<seq<Token>> := [];
      var i := 0;
      NothingBefore(whole);
      assert spec[0..] == spec;
      while i < |spec|
        invariant 0 <= i <= |spec| && Valid()
        invariant params == old(params) + done.params
        invariant |done.conditions| == i && texts == PrintAll(done.conditions)
        invariant whole == After(done, CompileOperators(name, spec[i..], next))
      {
        ghost var head := CompileOperator(name, spec[i].0, spec[i].1, next);
        CompileOperatorsStep(name, spec, i, next, done);
        var text := Operator(name, spec[i].0, spec[i].1);
        if text.Err? {
          return Err;
        }
        OneMoreText(done.conditions, head.value);
        texts := texts + [text.value];
        done := Joined(done, head.value);
        i := i + 1;
      }
      NoOperators(name, spec, next);
      AfterNothing(done);
      if texts != [] {
        JoinTextIsChain(AndOp, done.conditions);
      }
      r := Ok(JoinText(AndOp, texts));
    }

    /** The texts of the parts of `$and` or `$or`, one each. */
    method Parts(parts: seq<Filter>) returns (r: Result<seq<seq<Token>>>)
      requires Valid()
      modifies this
      ensures Valid() && r.Ok? == CompileParts(parts, old(next)).Ok?
      ensures r.Ok? ==>
        var c := CompileParts(parts, old(next)).value;
        params == old(params) + c.params && r.value == PrintAll(AndEach(c.conditions))
      decreases parts, 0
    {
      hide CompileFilter, CompileParts, Print, PrintAll, AndEach, Chain, JoinText;
      PrintAllNone();
      ghost var whole := CompileParts(parts, next);
      ghost var done: Compiled<seq<Expr>> := Compiled([], []);
      var texts: seq<seq<Token>> := [];
      var i := 0;
      NothingBefore(whole);
      assert parts[0..] == parts;
      while i < |parts|
        invariant 0 <= i <= |parts| && Valid()
        invariant params == old(params) + done.params
        invariant NoneEmpty(done.conditions) && texts == PrintAll(AndEach(done.conditions))
        invariant whole == After(done, CompileParts(parts[i..], next))
      {
        ghost var head := CompileFilter(parts[i], next);
        CompilePartsStep(parts, i, next, done);
        var text := Where(parts[i]);
        if text.Err? {
          return Err;
        }
        AndEachOneMore(done.conditions, head.value.conditions);
        texts := texts + [text.value];
        ghost var one := Compiled([head.value.conditions], head.value.params);
        done := Joined(done, one);
        i := i + 1;
      }
      NoParts(parts, next);
      AfterNothing(done);
      r := Ok(texts);
    }

    method Clause(c: Clause) returns (r: Result<seq<Token>>)
      requires Valid()
      modifies this
      ensures Built(old(params), CompileClause(c, old(next)), r)
      decreases c, 1
    {
      match c
      case All(parts) =>
        var texts := Parts(parts);
        if texts.Err? {
          return Err;
        }
        if parts == [] {
          return Ok([TLeaf(Truth(true))]);
        }
        ghost var ess := CompileParts(parts, old(next)).value.conditions;
        JoinedParts(ess);
        r := Ok(Wrap(JoinText(AndOp, texts.value)));
      case Any(parts) =>
        var texts := Parts(parts);
        if texts.Err? {
          return Err;
        }
        if parts == [] {
          return Ok([TLeaf(Truth(true))]);
        }
        JoinTextIsChain(OrOp, AndEach(CompileParts(parts, old(next)).value.conditions));
        r := Ok(Wrap(JoinText(OrOp, texts.value)));
      case Equal(name, v) =>
        r := Equals(name, v);
      case Braces(name, entries) =>
        if IsOperatorSpec(entries) {
          r := Operators(name, entries);
        } else {
          r := Equals(name, Dict(ToDict(entries)));
        }
    }

    /** `where`: the SQL text of a filter; its operands are bound, in order. */
    method Where(f: Filter) returns (r: Result<seq<Token>>)
      requires Valid()
      modifies this
      ensures Built(old(params), CompileFilter(f, old(next)), r)
      decreases f, 0
    {
      hide CompileClause, CompileClauses, Print, Chain, JoinText, PrintAll;
      PrintAllNone();
      ghost var whole := CompileClauses(f.clauses, next);
      ghost var done: Compiled<Expr> := Compiled([], []);
      var texts: seq<seq<Token>> := [];
      var i := 0;
      NothingBefore(whole);
      assert f.clauses[0..] == f.clauses;
      while i < |f.clauses|
        invariant 0 <= i <= |f.clauses| && Valid()
        invariant params == old(params) + done.params
        invariant |texts| == i && (texts == [] <==> done.conditions == [])
        invariant JoinText(AndOp, texts) == JoinText(AndOp, PrintAll(done.conditions))
        invariant whole == After(done, CompileClauses(f.clauses[i..], next))
      {
        ghost var head := CompileClause(f.clauses[i], next);
        CompileClausesStep(f.clauses, i, next, done);
        var text := Clause(f.clauses[i]);
        if text.Err? {
          return Err;
        }
        JoinOneMore(texts, done.conditions, text.value, head.value.conditions);
        texts := texts + [text.value];
        done := Joined(done, head.value);
        i := i + 1;
      }
      NoClauses(f.clauses, next);
      AfterNothing(done);
      if texts == [] {
        PrintTruth(true);
        return Ok([TLeaf(Truth(true))]);
      }
      JoinTextIsChain(AndOp, done.conditions);
      r := Ok(JoinText(AndOp, texts));
    }
  }

  /** Appending the text of some AND-ed conditions appends the conditions. */
  lemma JoinOneMore(texts: seq<seq<Token>>, es: seq<Expr>, text: seq<Token>, more: seq<Expr>)
    requires texts == [] <==> es == []
    requires JoinText(AndOp, texts) == JoinText(AndOp, PrintAll(es))
    requires more != [] && text == Print(Chain(AndOp, more))
    ensures JoinText(AndOp, texts + [text]) == JoinText(AndOp, PrintAll(es + more))
  {
    JoinTextIsChain(AndOp, more);
    assert PrintAll(es + more) == PrintAll(es) + PrintAll(more);
    if texts == [] {
      assert texts + [text] == [text] && PrintAll(es) + PrintAll(more) == PrintAll(more);
    } else {
      JoinTextConcat(AndOp, texts, [text]);
      JoinTextConcat(AndOp, PrintAll(es), PrintAll(more));
    }
  }

  /** Joining the parts' AND chains with AND gives one flat AND chain. */
  lemma {:induction false} JoinedParts(ess: seq<seq<Expr>>)
    requires ess != [] && NoneEmpty(ess)
    ensures JoinText(AndOp, PrintAll(AndEach(ess))) == Print(Chain(AndOp, Flatten(ess)))
  {
    hide Print, Chain, JoinText;
    var first := Print(Chain(AndOp, ess[0]));
    JoinOne(AndOp, first);
    if |ess| == 1 {
      OnePart(ess);
    } else {
      var rest := ess[1..];
      JoinedParts(rest);
      assert AndEach(ess) == [Chain(AndOp, ess[0])] + AndEach(rest);
      assert PrintAll(AndEach(ess)) == [first] + PrintAll(AndEach(rest));
      JoinTextConcat(AndOp, [first], PrintAll(AndEach(rest)));
      ChainConcat(ess[0], Flatten(rest));
    }
  }

  lemma OnePart(ess: seq<seq<Expr>>)
    requires |ess| == 1 && NoneEmpty(ess)
    ensures Flatten(ess) == ess[0] && PrintAll(AndEach(ess)) == [Print(Chain(AndOp, ess[0]))]
  {
  }

  lemma JoinOne(op: Infix, text: seq<Token>)
    ensures JoinText(op, [text]) == text
  {
  }

  lemma ChainConcat(es: seq<Expr>, more: seq<Expr>)
    requires es != [] && more != []
    ensures Print(Chain(AndOp, es + more)) == Print(Chain(AndOp, es)) + ([TIn(AndOp)] + Print(Chain(AndOp, more)))
  {
    hide Print, Chain;
    JoinTextIsChain(AndOp, es);
    JoinTextIsChain(AndOp, more);
    JoinTextIsChain(AndOp, es + more);
    assert PrintAll(es + more) == PrintAll(es) + PrintAll(more);
    JoinTextConcat(AndOp, PrintAll(es), PrintAll(more));
  }
}
