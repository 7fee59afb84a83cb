/** What the emitted SQL means: its parameters are bound, and it is then evaluated with three-valued logic over
    one JSONB document. `Fault` is an error, or a value the filter compiler never relies on. */
module SqlEval {
  import opened Lib
  import opened Values
  import opened SqlGrammar
  import opened SqlLiterals

  /** A bound parameter: JSON text for `::jsonb`, a number for `::numeric`, or text. */
  datatype Bound = BoundJson(j: Json) | BoundNum(n: real) | BoundText(s: string)

  datatype Sql =
    | Null
    | B(b: bool)
    | J(j: Json)
    | T(s: string)
    | N(n: real)
    | Raw(bound: Bound)   // a parameter before its cast
    | Fault

  datatype Env = Env(doc: map<string, Json>, params: seq<Bound>)

  /** `jsonb_typeof`. */
  function TypeName(j: Json): string {
    match j
    case JNull => "null"
    case JBool(_) => "boolean"
    case JNum(_) => "number"
    case JStr(_) => "string"
    case JArr(_) => "array"
    case JObj(_) => "object"
  }

  predicate IsJsonScalar(j: Json) {
    !j.JArr? && !j.JObj?
  }

  /** Structural containment of one JSON value in another, arrays and objects included. */
  predicate DeepContains(a: Json, b: Json) {
    match (a, b)
    case (JArr(xs), JArr(ys)) => forall j | 0 <= j < |ys| :: exists i | 0 <= i < |xs| :: DeepContains(xs[i], ys[j])
    case (JObj(m), JObj(n)) => n.Keys <= m.Keys && forall k | k in n && k in m :: DeepContains(m[k], n[k])
    case _ => IsJsonScalar(a) && a == b
  }

  /** `a @> b`: an array may also contain a bare scalar (section 8.14.3). */
  predicate Contains(a: Json, b: Json) {
    DeepContains(a, b) || (a.JArr? && IsJsonScalar(b) && b in a.items)
  }

  /** Walk nested objects; anything else on the way means "missing". */
  function LookupJson(j: Json, path: seq<string>): Option<Json> {
    if path == [] then Some(j)
    else if j.JObj? && path[0] in j.fields then LookupJson(j.fields[path[0]], path[1..])
    else None
  }

  function OrNull(j: Option<Json>): Sql {
    if j.Some? then J(j.value) else Null
  }

  predicate IsLogical(v: Sql) {
    v.B? || v.Null?
  }

  /** `AND`: a false left side decides without looking at the right one. */
  function AndSql(l: Sql, r: Sql): Sql {
    if !IsLogical(l) then Fault
    else if l == B(false) then B(false)
    else if !IsLogical(r) then Fault
    else if r == B(false) then B(false)
    else if l == B(true) && r == B(true) then B(true)
    else Null
  }

  /** `OR`: a true left side decides without looking at the right one. */
  function OrSql(l: Sql, r: Sql): Sql {
    if !IsLogical(l) then Fault
    else if l == B(true) then B(true)
    else if !IsLogical(r) then Fault
    else if r == B(true) then B(true)
    else if l == B(false) && r == B(false) then B(false)
    else Null
  }

  function NotSql(v: Sql): Sql {
    if v.B? then B(!v.b) else if v.Null? then Null else Fault
  }

  function CompareSql(op: Infix, l: Sql, r: Sql): Sql {
    if l.Fault? || r.Fault? then Fault
    else if l.Null? || r.Null? then Null
    else match (op, l, r)
      case (EqOp, J(a), J(b)) => B(a == b)
      case (EqOp, T(a), T(b)) => B(a == b)
      case (LtOp, N(a), N(b)) => B(a < b)
      case (LeOp, N(a), N(b)) => B(a <= b)
      case (GtOp, N(a), N(b)) => B(a > b)
      case (LtOp, T(a), T(b)) => B(TextLess(a, b))
      case (LeOp, T(a), T(b)) => B(TextLess(a, b) || a == b)
      case (GtOp, T(a), T(b)) => B(TextLess(b, a))
      case _ => Fault
  }

  /** `j #> path`: a null element in the path gives NULL. */
  function PathSql(j: Json, path: PathRead): Sql {
    match path
    case Malformed => Fault
    case HasNull => Null
    case Path(parts) => OrNull(LookupJson(j, parts))
  }

  function OtherSql(op: Infix, l: Sql, r: Sql): Sql {
    if l.Fault? || r.Fault? then Fault
    else if l.Null? || r.Null? then Null
    else match (op, l, r)
      case (ArrowOp, J(j), T(k)) => OrNull(LookupJson(j, [k]))
      case (PathOp, J(j), T(s)) => PathSql(j, ReadPath(s))
      case (PathTextOp, J(JStr(x)), T(s)) => if ReadPath(s) == Path([]) then T(x) else Fault
      case (PathTextOp, J(JNull), T(s)) => if ReadPath(s) == Path([]) then Null else Fault
      case (ContainsOp, J(a), J(b)) => B(Contains(a, b))
      case (HasKeyOp, J(JObj(m)), T(k)) => B(k in m)
      case _ => Fault
  }

  function PostSql(v: Sql, post: Postfix): Sql {
    match post
    case IsNull => if v.Fault? then Fault else B(v.Null?)
    case IsNotNull => if v.Fault? then Fault else B(!v.Null?)
    case AsJsonb =>
      (match v
       case Null => Null
       case Raw(BoundJson(j)) => J(j)
       case T(s) => if s == "null" then J(JNull) else Fault
       case _ => Fault)
    case AsNumeric =>
      (match v
       case Null => Null
       case Raw(BoundNum(n)) => N(n)
       case J(JNum(n)) => N(n)
       case _ => Fault)
    case CollateC =>
      (match v
       case Null => Null
       case Raw(BoundText(s)) => T(s)
       case T(s) => T(s)
       case _ => Fault)
  }

  function LeafSql(leaf: Leaf, env: Env): Sql {
    match leaf
    case DocColumn => J(JObj(env.doc))
    case Quoted(s) => T(s)
    case Param(i) => if 1 <= i <= |env.params| then Raw(env.params[i - 1]) else Fault
    case Truth(b) => B(b)
  }

  function Eval(e: Expr, env: Env): Sql {
    match e
    case Atom(leaf) => LeafSql(leaf, env)
    case Paren(x) => Eval(x, env)
    case Typeof(x) =>
      (match Eval(x, env)
       case Null => Null
       case J(j) => T(TypeName(j))
       case _ => Fault)
    case Not(x) => NotSql(Eval(x, env))
    case Bin(op, l, r) =>
      var a, b := Eval(l, env), Eval(r, env);
      (match op
       case AndOp => AndSql(a, b)
       case OrOp => OrSql(a, b)
       case EqOp | LtOp | LeOp | GtOp => CompareSql(op, a, b)
       case _ => OtherSql(op, a, b))
    case Post(x, post) => PostSql(Eval(x, env), post)
  }

  // ---- binding ------------------------------------------------------------------------------------

  /** PostgreSQL takes the parameter: neither `jsonb` nor `text` holds U+0000. */
  predicate CanBind(b: Bound) {
    match b
    case BoundJson(j) => IsJsonb(j)
    case BoundNum(_) => true
    case BoundText(s) => NulFreeText(s)
  }

  predicate AllBind(params: seq<Bound>) {
    forall p | p in params :: CanBind(p)
  }

  /** The client library sends no statement with more parameters. */
  const MAX_PARAMS := 32767

  predicate CanRun(params: seq<Bound>) {
    AllBind(params) && |params| <= MAX_PARAMS
  }

  /** What a statement makes of the expression: every parameter is converted before anything is evaluated, so one
      that cannot be is an error whatever the expression says. */
  function Run(e: Expr, env: Env): Sql {
    if CanRun(env.params) then Eval(e, env) else Fault
  }

  predicate Accepts(e: Expr, env: Env) {
    Eval(e, env) == B(true)
  }

  // ---- chains of AND and OR -----------------------------------------------------------------------

  predicate AllLogical(es: seq<Expr>, env: Env) {
    forall e | e in es :: IsLogical(Eval(e, env))
  }

  lemma {:induction false} AndChain(es: seq<Expr>, env: Env)
    requires es != [] && AllLogical(es, env)
    ensures IsLogical(Eval(Chain(AndOp, es), env))
    ensures Accepts(Chain(AndOp, es), env) <==> forall e | e in es :: Accepts(e, env)
  {
    if |es| > 1 {
      var front, last := es[..|es| - 1], es[|es| - 1];
      AndChain(front, env);
      assert es == front + [last] && forall e :: e in es <==> e in front || e == last;
      assert last in es && IsLogical(Eval(last, env));
      assert Eval(Chain(AndOp, es), env) == AndSql(Eval(Chain(AndOp, front), env), Eval(last, env));
    } else {
      assert es == [es[0]];
    }
  }

  lemma {:induction false} OrChain(es: seq<Expr>, env: Env)
    requires es != [] && AllLogical(es, env)
    ensures IsLogical(Eval(Chain(OrOp, es), env))
    ensures Accepts(Chain(OrOp, es), env) <==> exists e | e in es :: Accepts(e, env)
  {
    if |es| > 1 {
      var front, last := es[..|es| - 1], es[|es| - 1];
      OrChain(front, env);
      assert es == front + [last] && forall e :: e in es <==> e in front || e == last;
      assert last in es && IsLogical(Eval(last, env));
      assert Eval(Chain(OrOp, es), env) == OrSql(Eval(Chain(OrOp, front), env), Eval(last, env));
    } else {
      assert es == [es[0]];
    }
  }
}
