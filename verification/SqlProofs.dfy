/** The compiled SQL is TRUE exactly when the matcher accepts, and its flat text reads back as
    the compiled expression. */
module SqlProofs {
  import opened Lib
  import opened Datetimes
  import opened Values
  import opened SqlLiterals
  import opened SqlGrammar
  import opened SqlEval
  import opened SqlFilter
  import opened SqlBinding
  import opened SqlMatcher

  /** The parameters `ps` are bound as numbers `n`, `n + 1`, ... */
  predicate Placed(env: Env, n: nat, ps: seq<Bound>) {
    && 1 <= n && n - 1 + |ps| <= |env.params|
    && forall i | 0 <= i < |ps| :: env.params[n - 1 + i] == ps[i]
  }

  lemma PlacedParts(env: Env, n: nat, a: seq<Bound>, b: seq<Bound>)
    requires Placed(env, n, a + b)
    ensures Placed(env, n, a) && Placed(env, n + |a|, b)
  {
    forall i | 0 <= i < |a|
      ensures env.params[n - 1 + i] == a[i]
    {
      assert (a + b)[i] == a[i];
    }
    forall i | 0 <= i < |b|
      ensures env.params[n + |a| - 1 + i] == b[i]
    {
      assert (a + b)[|a| + i] == b[i];
    }
  }

  predicate Stores(env: Env, doc: map<string, Value>) {
    JObj(env.doc) == Prepare(Dict(doc))
  }

  function Stored(v: Option<Value>): Option<Json> {
    if v.None? then None else Some(Prepare(v.value))
  }

  // ---- one evaluation step at a time ---------------------------------------------------------------------

  lemma EvalParam(env: Env, n: nat, b: Bound)
    requires Placed(env, n, [b])
    ensures Eval(Atom(Param(n)), env) == Raw(b)
  {
    assert [b][0] == b;
  }

  lemma EvalAtom(leaf: Leaf, env: Env)
    ensures Eval(Atom(leaf), env) == LeafSql(leaf, env)
  {
    hide AndSql, OrSql, NotSql, CompareSql, OtherSql, PostSql, LeafSql;
  }

  lemma EvalPost(x: Expr, post: Postfix, env: Env)
    ensures Eval(Post(x, post), env) == PostSql(Eval(x, env), post)
    ensures Eval(Paren(x), env) == Eval(x, env)
  {
    hide AndSql, OrSql, NotSql, CompareSql, OtherSql, PostSql, LeafSql;
  }

  lemma EvalLogical(l: Expr, r: Expr, env: Env)
    ensures Eval(Bin(AndOp, l, r), env) == AndSql(Eval(l, env), Eval(r, env))
    ensures Eval(Bin(OrOp, l, r), env) == OrSql(Eval(l, env), Eval(r, env))
  {
    hide AndSql, OrSql, NotSql, CompareSql, OtherSql, PostSql, LeafSql;
  }

  lemma EvalCompare(op: Infix, l: Expr, r: Expr, env: Env)
    requires op == EqOp || op == LtOp || op == LeOp || op == GtOp
    ensures Eval(Bin(op, l, r), env) == CompareSql(op, Eval(l, env), Eval(r, env))
  {
    hide AndSql, OrSql, NotSql, CompareSql, OtherSql, PostSql, LeafSql;
  }

  lemma EvalOther(op: Infix, l: Expr, r: Expr, env: Env)
    requires op == PathTextOp || op == ContainsOp || op == ArrowOp || op == PathOp || op == HasKeyOp
    ensures Eval(Bin(op, l, r), env) == OtherSql(op, Eval(l, env), Eval(r, env))
  {
    hide AndSql, OrSql, NotSql, CompareSql, OtherSql, PostSql, LeafSql;
  }

  // ---- fields ------------------------------------------------------------------------------------------

  lemma {:induction false} SplitOne(name: string)
    requires |SplitOn(name, '.')| == 1
    ensures SplitOn(name, '.') == [name]
  {
    if name != "" && name[0] != '.' {
      SplitOne(name[1..]);
      assert name == [name[0]] + name[1..];
    }
  }

  /** A word without white space is trimmed to itself, and loses a newline after it. */
  lemma TrimOfWord(word: string)
    requires word != "" && !IsSpace(word[0]) && !IsSpace(word[|word| - 1])
    ensures Trim(word) == word && Trim(word + "\n") == word
  {
    assert TrimLeft(word) == word && TrimLeft(word + "\n") == word + "\n";
    assert (word + "\n")[..|word|] == word;
  }

  lemma WordInArray(word: string, part: string)
    requires IsWord(word) && (part == word || part == word + "\n")
    ensures ',' !in part && Trim(part) == word && !IsOdd(part)
  {
    hide Trim;
    forall i | 0 <= i < |part|
      ensures part[i] != ',' && !IsSpecial(part[i]) && (i < |word| ==> !IsSpace(part[i]))
    {
      assert i < |word| ==> part[i] == word[i] && (IsNameStart(word[i]) || IsDigit(word[i]));
    }
    TrimOfWord(word);
  }

  /** An identifier stands in an array literal without quotes; only a final newline of it is lost. */
  lemma IdentifierInArray(part: string)
    requires IsIdentifier(part)
    ensures ',' !in part && !IsOdd(part)
    ensures PlainPart(part) <==> !IsNullWord(part) && Trim(part) == part
  {
    hide IsOdd, Trim, Core;
    WordInArray(Core(part), part);
  }

  /** The path written for a dotted name reads back exactly when no part is the word NULL or ends in a newline. */
  lemma PathReadsBack(name: string)
    requires |Split(name)| > 1 && GoodName(name)
    ensures ReadPath(PathLiteral(Split(name))) != Malformed
    ensures ReadPath(PathLiteral(Split(name))) == Path(Split(name)) <==> ReadsPath(name)
  {
    hide IsOdd, IsNullWord, Trim, PathLiteral, ReadPath, PlainPart, Split, IsIdentifier;
    var parts := Split(name);
    forall p | p in parts
      ensures ',' !in p && !IsOdd(p)
      ensures PlainPart(p) <==> !IsNullWord(p) && Trim(p) == p
    {
      IdentifierInArray(p);
    }
    ReadPathLiteral(parts);
    assert (forall p | p in parts :: Trim(p) == p) <==> TrimAll(parts) == parts by {
      if TrimAll(parts) == parts {
        forall p | p in parts
          ensures Trim(p) == p
        {
          var i :| 0 <= i < |parts| && parts[i] == p;
          assert TrimAll(parts)[i] == Trim(p);
        }
      }
    }
  }

  lemma {:induction false} LookupStored(v: Value, path: seq<string>)
    ensures LookupJson(Prepare(v), path) == Stored(Lookup(v, path))
    decreases path
  {
    if path != [] && v.Dict? && path[0] in v.fields {
      LookupStored(v.fields[path[0]], path[1..]);
    }
  }

  /** What the SQL field of this name reads, as a record value. */
  function SqlFind(doc: map<string, Value>, name: string): Option<Value> {
    if |Split(name)| == 1 then Find(doc, name)
    else match ReadPath(PathLiteral(Split(name)))
      case Path(parts) => Lookup(Dict(doc), parts)
      case _ => None
  }

  /** `field(name)` is the stored form of what it reads, or NULL when that is missing. */
  lemma FieldReads(doc: map<string, Value>, env: Env, name: string)
    requires Stores(env, doc) && (|Split(name)| == 1 || GoodName(name))
    ensures Eval(FieldExpr(name), env) == OrNull(Stored(SqlFind(doc, name)))
  {
    hide Eval, Prepare, Lookup, PathLiteral, ReadPath, GoodName, ReadsPath;
    EvalAtom(DocColumn, env);
    if |Split(name)| == 1 {
      LookupStored(Dict(doc), Split(name));
      SplitOne(name);
      EvalAtom(Quoted(name), env);
      EvalOther(ArrowOp, Atom(DocColumn), Atom(Quoted(name)), env);
    } else {
      PathReadsBack(name);
      var literal := PathLiteral(Split(name));
      EvalAtom(Quoted(literal), env);
      EvalOther(PathOp, Atom(DocColumn), Atom(Quoted(literal)), env);
      if ReadPath(literal).Path? {
        LookupStored(Dict(doc), ReadPath(literal).parts);
      }
    }
  }

  lemma SqlFindIsFind(doc: map<string, Value>, name: string)
    requires (|Split(name)| == 1 || GoodName(name)) && ReadsPath(name)
    ensures SqlFind(doc, name) == Find(doc, name)
  {
    if |Split(name)| > 1 {
      PathReadsBack(name);
    }
  }

  /** A name whose parts read as written gives the stored form of what the matcher finds, or NULL. */
  lemma FieldValue(doc: map<string, Value>, env: Env, name: string)
    requires Stores(env, doc) && (|Split(name)| == 1 || GoodName(name)) && ReadsPath(name)
    ensures Eval(FieldExpr(name), env) == OrNull(Stored(Find(doc, name)))
  {
    FieldReads(doc, env, name);
    SqlFindIsFind(doc, name);
  }

  // ---- equality -------------------------------------------------------------------------------------------

  /** What `_equals` accepts, read off the stored value. */
  predicate SqlEqual(found: Option<Json>, e: Value) {
    if e.Nil? then found.None? || found.value.JNull?
    else found.Some? && (found.value == Prepare(e) || (found.value.JArr? && Contains(found.value, Prepare(e))))
  }

  lemma NullEqualityValue(target: Expr, env: Env, found: Option<Json>)
    requires Eval(target, env) == OrNull(found)
    ensures Eval(NullEquality(target), env) == B(SqlEqual(found, Nil))
  {
    var either := NullEquality(target).e;
    assert Eval(either.r.r, env) == J(JNull);
    assert Eval(either.r, env) == CompareSql(EqOp, OrNull(found), J(JNull));
    assert Eval(either.l, env) == B(found.None?);
    assert Eval(either, env) == OrSql(Eval(either.l, env), Eval(either.r, env));
  }

  lemma TypeIsValue(target: Expr, env: Env, found: Option<Json>, name: string)
    requires Eval(target, env) == OrNull(found)
    ensures Eval(TypeIs(target, name), env) == if found.None? then Null else B(TypeName(found.value) == name)
  {
    assert Eval(Typeof(target), env) == if found.None? then Null else T(TypeName(found.value));
  }

  lemma ContainsValue(target: Expr, env: Env, n: nat, found: Option<Json>, e: Value)
    requires Eval(target, env) == OrNull(found) && Eval(JsonOperand(n), env) == J(Prepare(e))
    ensures Eval(Bin(AndOp, TypeIs(target, "array"), Bin(ContainsOp, target, JsonOperand(n))), env)
         == if found.None? then Null else B(found.value.JArr? && Contains(found.value, Prepare(e)))
  {
    hide Eval, Contains, Prepare, TypeIs, JsonOperand;
    TypeIsValue(target, env, found, "array");
    EvalOther(ContainsOp, target, JsonOperand(n), env);
    EvalLogical(TypeIs(target, "array"), Bin(ContainsOp, target, JsonOperand(n)), env);
  }

  lemma ValueEqualityValue(target: Expr, env: Env, n: nat, found: Option<Json>, e: Value)
    requires Eval(target, env) == OrNull(found) && !e.Nil? && Placed(env, n, [BoundJson(Prepare(e))])
    ensures Eval(ValueEquality(target, n), env) == if found.None? then Null else B(SqlEqual(found, e))
  {
    hide Eval, Contains, Prepare, Placed, TypeIs;
    EvalParam(env, n, BoundJson(Prepare(e)));
    EvalPost(Atom(Param(n)), AsJsonb, env);
    ContainsValue(target, env, n, found, e);
    var same := Bin(EqOp, target, JsonOperand(n));
    var both := Bin(AndOp, TypeIs(target, "array"), Bin(ContainsOp, target, JsonOperand(n)));
    EvalCompare(EqOp, target, JsonOperand(n), env);
    EvalPost(both, IsNull, env);
    EvalLogical(same, Paren(both), env);
    EvalPost(Bin(OrOp, same, Paren(both)), IsNull, env);
  }

  lemma EqualsValue(doc: map<string, Value>, env: Env, name: string, e: Value, n: nat, c: Compiled<Expr>)
    requires Stores(env, doc) && CompileEquals(name, e, n) == Ok(c) && Placed(env, n, c.params)
    ensures Eval(c.conditions[0], env)
         == if e.Nil? || SqlFind(doc, name).Some? then B(SqlEqual(Stored(SqlFind(doc, name)), e)) else Null
  {
    hide SqlFind, Eval;
    var found := Stored(SqlFind(doc, name));
    FieldReads(doc, env, name);
    if e.Nil? {
      NullEqualityValue(FieldExpr(name), env, found);
    } else {
      ValueEqualityValue(FieldExpr(name), env, n, found, e);
    }
  }

  lemma ScalarEqualityExactly(v: Value, e: Value)
    requires IsScalar(e)
    ensures Prepare(v) == Prepare(e) <==> v == e || StoredAlike(v, e)
    ensures PyEq(v, e) <==> v == e || Conflated(v, e)
  {
    hide Encode, Instant;
    if v.Time? && e.Time? {
      TextOrderIsInstantOrder(v.t, e.t);
    }
  }

  /** For scalar operands, SQL equality and the matcher's agree except on exactly the values named. */
  lemma EqualityAgreesExactly(v: Value, e: Value)
    requires IsScalar(e)
    ensures (SqlEqual(Some(Prepare(v)), e) <==> MatchEqual(v, e)) <==> !EqualityDiffers(v, e)
  {
    hide Encode, PyEq;
    ScalarEqualityExactly(v, e);
    if v.List? {
      ItemsExactly(v.items, e);
    }
  }

  lemma ItemsExactly(items: seq<Value>, e: Value)
    requires IsScalar(e)
    ensures Contains(Prepare(List(items)), Prepare(e)) <==> e in items || exists x | x in items :: StoredAlike(x, e)
    ensures (exists x | x in items :: PyEq(x, e)) <==> e in items || exists x | x in items :: Conflated(x, e)
  {
    hide PyEq, Conflated, StoredAlike;
    var stored := PrepareAll(items);
    assert Prepare(List(items)) == JArr(stored) && IsJsonScalar(Prepare(e));
    forall i | 0 <= i < |items|
      ensures stored[i] == Prepare(e) <==> items[i] == e || StoredAlike(items[i], e)
      ensures PyEq(items[i], e) <==> items[i] == e || Conflated(items[i], e)
      ensures items[i] in items && stored[i] in stored
    {
      ScalarEqualityExactly(items[i], e);
    }
    assert Contains(JArr(stored), Prepare(e)) <==> Prepare(e) in stored;
  }

  /** On its domain, the stored form is equal, or contains, exactly when Python says so. */
  lemma EqualityAgrees(v: Option<Value>, e: Value)
    requires EqualDomain(if v.Some? then v.value else Nil, e)
    ensures SqlEqual(Stored(v), e) <==> MatchEqual(if v.Some? then v.value else Nil, e)
  {
    hide EqualityDiffers;
    if v.Some? {
      EqualityAgreesExactly(v.value, e);
    }
  }

  // ---- comparisons -------------------------------------------------------------------------------------------

  lemma NumberComparisonValue(target: Expr, env: Env, op: Infix, n: nat, found: Option<Json>, x: real)
    requires Eval(target, env) == OrNull(found) && Placed(env, n, [BoundNum(x)])
    requires op == LtOp || op == LeOp || op == GtOp
    ensures Eval(NumberComparison(target, op, n), env)
         == if found.None? then Null
            else if !found.value.JNum? then B(false)
            else CompareSql(op, N(found.value.n), N(x))
  {
    hide Eval, Placed, TypeIs;
    var kind, left, right := TypeIs(target, "number"), Post(Paren(target), AsNumeric), Post(Atom(Param(n)), AsNumeric);
    TypeIsValue(target, env, found, "number");
    EvalParam(env, n, BoundNum(x));
    EvalPost(Atom(Param(n)), AsNumeric, env);
    EvalPost(target, AsNumeric, env);
    EvalPost(Paren(target), AsNumeric, env);
    EvalCompare(op, left, right, env);
    EvalLogical(kind, Bin(op, left, right), env);
    EvalPost(Bin(AndOp, kind, Bin(op, left, right)), IsNull, env);
    ComparesNumbers(op, if found.Some? && found.value.JNum? then found.value.n else x, x);
  }

  lemma ComparesNumbers(op: Infix, a: real, b: real)
    requires op == LtOp || op == LeOp || op == GtOp
    ensures CompareSql(op, N(a), N(b)).B?
  {
  }

  lemma ComparesTexts(op: Infix, a: string, b: string)
    requires op == LtOp || op == LeOp || op == GtOp
    ensures CompareSql(op, T(a), T(b)).B?
  {
  }

  lemma PlainTextValue(target: Expr, env: Env, found: Option<Json>)
    requires Eval(target, env) == OrNull(found)
    ensures Eval(Post(Paren(Bin(PathTextOp, target, Atom(Quoted("{}")))), CollateC), env)
         == if found.None? || found.value.JNull? then Null else if found.value.JStr? then T(found.value.s) else Fault
  {
    hide Eval;
    var text := Bin(PathTextOp, target, Atom(Quoted("{}")));
    EvalOther(PathTextOp, target, Atom(Quoted("{}")), env);
    EvalAtom(Quoted("{}"), env);
    assert ReadPath("{}") == Path([]);
    EvalPost(text, CollateC, env);
    EvalPost(Paren(text), CollateC, env);
  }

  lemma TextComparisonValue(target: Expr, env: Env, op: Infix, n: nat, found: Option<Json>, s: string)
    requires Eval(target, env) == OrNull(found) && Placed(env, n, [BoundText(s)])
    requires op == LtOp || op == LeOp || op == GtOp
    ensures Eval(TextComparison(target, op, n), env)
         == if found.None? then Null
            else if !found.value.JStr? then B(false)
            else CompareSql(op, T(found.value.s), T(s))
  {
    hide Eval, Placed, TypeIs;
    var kind := TypeIs(target, "string");
    var left := Post(Paren(Bin(PathTextOp, target, Atom(Quoted("{}")))), CollateC);
    var right := Post(Atom(Param(n)), CollateC);
    TypeIsValue(target, env, found, "string");
    PlainTextValue(target, env, found);
    EvalParam(env, n, BoundText(s));
    EvalPost(Atom(Param(n)), CollateC, env);
    EvalCompare(op, left, right, env);
    EvalLogical(kind, Bin(op, left, right), env);
    EvalPost(Bin(AndOp, kind, Bin(op, left, right)), IsNull, env);
    ComparesTexts(op, if found.Some? && found.value.JStr? then found.value.s else s, s);
  }

  lemma TextVerdict(v: Value, s: string)
    requires v.Text?
    ensures PyLess(v, Text(s)) == Some(TextLess(v.s, s)) && PyLess(Text(s), v) == Some(TextLess(s, v.s))
    ensures !TextLess(s, v.s) <==> TextLess(v.s, s) || v.s == s
  {
    TextLessTrichotomy(v.s, s);
    TextLessIrreflexive(s);
  }

  lemma TimeVerdict(v: Value, t: Stamp)
    requires v.Time?
    ensures PyLess(v, Time(t)) == Some(TextLess(Encode(v.t), Encode(t)))
    ensures PyLess(Time(t), v) == Some(TextLess(Encode(t), Encode(v.t)))
    ensures !TextLess(Encode(t), Encode(v.t)) <==> TextLess(Encode(v.t), Encode(t)) || Encode(v.t) == Encode(t)
  {
    TextOrderIsInstantOrder(v.t, t);
    TextOrderIsInstantOrder(t, v.t);
    TextLessTrichotomy(Encode(v.t), Encode(t));
    TextLessIrreflexive(Encode(t));
  }

  /** What a comparison evaluates to, by the type of its operand. */
  function Compared(found: Option<Value>, op: string, e: Value): Sql
    requires IsComparison(op)
  {
    if found.None? then Null
    else match (found.value, e)
      case (Num(a), Num(b)) => CompareSql(ComparisonOp(op), N(a), N(b))
      case (Text(a), Text(b)) => CompareSql(ComparisonOp(op), T(a), T(b))
      case (Text(a), Time(b)) => CompareSql(ComparisonOp(op), T(a), T(Encode(b)))
      case (Time(a), Text(b)) => CompareSql(ComparisonOp(op), T(Encode(a)), T(b))
      case (Time(a), Time(b)) => CompareSql(ComparisonOp(op), T(Encode(a)), T(Encode(b)))
      case _ => B(false)
  }

  /** A comparison of a missing field is NULL; of a value of another type, FALSE. */
  lemma CompareValue(doc: map<string, Value>, env: Env, name: string, op: string, e: Value, n: nat, c: Compiled<Expr>)
    requires Stores(env, doc) && IsComparison(op)
    requires CompileCompare(name, op, e, n) == Ok(c) && Placed(env, n, c.params)
    ensures |c.conditions| == 1 && Eval(c.conditions[0], env) == Compared(SqlFind(doc, name), op, e)
    ensures IsLogical(Compared(SqlFind(doc, name), op, e))
  {
    hide Split, Lookup, Encode, TextLess, NumberComparison, TextComparison, SqlFind;
    var found := SqlFind(doc, name);
    FieldReads(doc, env, name);
    match e
    case Num(x) =>
      NumberComparisonValue(FieldExpr(name), env, ComparisonOp(op), n, Stored(found), x);
    case Text(s) =>
      TextComparisonValue(FieldExpr(name), env, ComparisonOp(op), n, Stored(found), s);
    case Time(t) =>
      TextComparisonValue(FieldExpr(name), env, ComparisonOp(op), n, Stored(found), Encode(t));
  }

  lemma CompareAgrees(found: Option<Value>, op: string, e: Value)
    requires IsComparison(op) && (e.Num? || e.Text? || e.Time?)
    requires MatchCompare(if found.Some? then found.value else Nil, op, e).Holds?
    ensures var v := if found.Some? then found.value else Nil;
      (Compared(found, op, e) == B(true) <==> MatchCompare(v, op, e).b) <==> !ComparisonDiffers(v, op, e)
  {
    hide TextLess, Encode, Instant;
    if found.Some? && found.value.Text? && e.Text? {
      TextVerdict(found.value, e.s);
    } else if found.Some? && found.value.Time? && e.Time? {
      TimeVerdict(found.value, e.t);
    }
  }

  // ---- operators -----------------------------------------------------------------------------------------------

  lemma EqualsAgrees(doc: map<string, Value>, env: Env, name: string, e: Value, n: nat, c: Compiled<Expr>)
    requires Stores(env, doc) && CompileEquals(name, e, n) == Ok(c) && Placed(env, n, c.params)
    ensures |c.conditions| == 1 && IsLogical(Eval(c.conditions[0], env))
    ensures ReadsPath(name) && EqualDomain(Get(doc, name), e)
      ==> (Accepts(c.conditions[0], env) <==> MatchEqual(Get(doc, name), e))
  {
    hide ReadsPath, SqlFind, Find, Eval, EqualityDiffers, MatchEqual, SqlEqual;
    EqualsValue(doc, env, name, e, n, c);
    if ReadsPath(name) && EqualDomain(Get(doc, name), e) {
      SqlFindIsFind(doc, name);
      EqualityAgrees(Find(doc, name), e);
      if !e.Nil? {
        NothingEqualsMissing(e);
      }
    }
  }

  lemma NothingEqualsMissing(e: Value)
    requires !e.Nil?
    ensures !SqlEqual(None, e)
  {
  }

  predicate OptionsDomain(v: Value, options: seq<Value>) {
    forall x | x in options :: EqualDomain(v, x)
  }

  predicate EqualsSome(v: Value, options: seq<Value>) {
    exists x | x in options :: MatchEqual(v, x)
  }

  lemma {:induction false} OptionsValue(doc: map<string, Value>, env: Env, name: string, options: seq<Value>, n: nat,
                                        c: Compiled<Expr>)
    requires Stores(env, doc) && CompileOptions(name, options, n) == Ok(c) && Placed(env, n, c.params)
    ensures AllLogical(c.conditions, env)
    ensures ReadsPath(name) && OptionsDomain(Get(doc, name), options)
      ==> ((exists e | e in c.conditions :: Accepts(e, env)) <==> EqualsSome(Get(doc, name), options))
    decreases options
  {
    hide CompileEquals, MatchEqual, EqualDomain, Find, ReadsPath, Eval;
    if options != [] {
      var head := CompileEquals(name, options[0], n).value;
      var tail := CompileOptions(name, options[1..], n + |head.params|).value;
      PlacedParts(env, n, head.params, tail.params);
      EqualsAgrees(doc, env, name, options[0], n, head);
      OptionsValue(doc, env, name, options[1..], n + |head.params|, tail);
      assert c.conditions == [head.conditions[0]] + tail.conditions;
      assert forall e :: e in c.conditions <==> e == head.conditions[0] || e in tail.conditions;
      assert options == [options[0]] + options[1..];
      assert forall x :: x in options <==> x == options[0] || x in options[1..];
    }
  }

  /** For scalar options, membership or overlap is equality with some option. */
  lemma MatchInIsAnyEqual(v: Value, options: seq<Value>)
    requires MatchIn(v, options).Holds?
    ensures MatchIn(v, options).b <==> EqualsSome(v, options)
  {
  }

  lemma InValue(doc: map<string, Value>, env: Env, name: string, options: seq<Value>, n: nat, c: Compiled<Expr>)
    requires Stores(env, doc) && CompileOperator(name, "$in", List(options), n) == Ok(c) && Placed(env, n, c.params)
    ensures IsLogical(Eval(c.conditions[0], env))
    ensures ReadsPath(name) && OptionsDomain(Get(doc, name), options) && MatchIn(Get(doc, name), options).Holds?
      ==> (Accepts(c.conditions[0], env) <==> MatchIn(Get(doc, name), options).b)
  {
    hide MatchIn, MatchEqual, EqualDomain, ReadsPath;
    var compiled := CompileOptions(name, options, n).value;
    OptionsValue(doc, env, name, options, n, compiled);
    if options != [] {
      OrChain(compiled.conditions, env);
    }
    if MatchIn(Get(doc, name), options).Holds? {
      MatchInIsAnyEqual(Get(doc, name), options);
    }
  }

  lemma ExistsValue(doc: map<string, Value>, env: Env, name: string, e: Expr)
    requires Stores(env, doc) && ExistsExpr(name) == Ok(e)
    ensures Eval(e, env) == B(SqlFind(doc, name).Some?)
  {
    hide Eval, Prepare;
    if |Split(name)| == 1 {
      SplitOne(name);
      EvalAtom(DocColumn, env);
      EvalAtom(Quoted(name), env);
      EvalOther(HasKeyOp, Atom(DocColumn), Atom(Quoted(name)), env);
      StoredKeys(doc, env);
      assert [name][1..] == [] && Lookup(Dict(doc), [name]).Some? <==> name in doc;
    } else {
      FieldReads(doc, env, name);
      EvalPost(FieldExpr(name), IsNotNull, env);
      EvalPost(Post(FieldExpr(name), IsNotNull), IsNull, env);
    }
  }

  lemma StoredKeys(doc: map<string, Value>, env: Env)
    requires Stores(env, doc)
    ensures env.doc.Keys == doc.Keys
  {
  }

  lemma ComparisonEvaluates(doc: map<string, Value>, env: Env, name: string, op: string, e: Value, n: nat,
                            c: Compiled<Expr>)
    requires Stores(env, doc) && IsComparison(op) && CompileCompare(name, op, e, n) == Ok(c) && Placed(env, n, c.params)
    ensures |c.conditions| == 1 && IsLogical(Eval(c.conditions[0], env))
    ensures ReadsPath(name) && MatchCompare(Get(doc, name), op, e).Holds? ==>
      ((Accepts(c.conditions[0], env) <==> MatchCompare(Get(doc, name), op, e).b)
        <==> !ComparisonDiffers(Get(doc, name), op, e))
  {
    hide ReadsPath, SqlFind, Find, Eval, Compared, MatchCompare;
    CompareValue(doc, env, name, op, e, n, c);
    if ReadsPath(name) && MatchCompare(Get(doc, name), op, e).Holds? {
      SqlFindIsFind(doc, name);
      CompareAgrees(Find(doc, name), op, e);
    }
  }

  /** A comparison is an error exactly when the statement cannot run with its parameters, as when its own operand
      holds U+0000; else it accepts as the matcher does, except exactly on the fields named. */
  lemma ComparisonAgrees(doc: map<string, Value>, env: Env, name: string, op: string, e: Value, n: nat,
                         c: Compiled<Expr>)
    requires Stores(env, doc) && IsComparison(op) && CompileCompare(name, op, e, n) == Ok(c) && Placed(env, n, c.params)
    ensures |c.conditions| == 1 && (IsLogical(Run(c.conditions[0], env)) <==> CanRun(env.params))
    ensures CanRun(env.params) ==> NulFree(e)
    ensures ReadsPath(name) && MatchCompare(Get(doc, name), op, e).Holds? && CanRun(env.params) ==>
      ((Run(c.conditions[0], env) == B(true) <==> MatchCompare(Get(doc, name), op, e).b)
        <==> !ComparisonDiffers(Get(doc, name), op, e))
  {
    hide ReadsPath, Find, Eval, MatchCompare, CompileCompare, AllBind, NulFree, Placed;
    ComparisonEvaluates(doc, env, name, op, e, n, c);
    CompareBinds(name, op, e, n);
    PlacedBind(env, n, c.params);
  }

  lemma PlacedBind(env: Env, n: nat, ps: seq<Bound>)
    requires Placed(env, n, ps)
    ensures CanRun(env.params) ==> AllBind(ps)
  {
    hide CanBind;
    forall p | p in ps
      ensures p in env.params
    {
      var i :| 0 <= i < |ps| && ps[i] == p;
      assert env.params[n - 1 + i] == p;
    }
  }

  lemma ExistsAgrees(doc: map<string, Value>, env: Env, name: string, e: Value, test: Expr)
    requires Stores(env, doc) && ExistsExpr(name) == Ok(test)
    ensures IsLogical(Eval(test, env)) && IsLogical(Eval(Not(Paren(test)), env))
    ensures ReadsPath(name) ==>
      ((Accepts(if Truthy(e) then test else Not(Paren(test)), env) <==> PyEq(Bool(Find(doc, name).Some?), e))
        <==> !ExistsDiffers(Find(doc, name).Some?, e))
  {
    hide ReadsPath, SqlFind, Find;
    ExistsValue(doc, env, name, test);
    if ReadsPath(name) {
      SqlFindIsFind(doc, name);
    }
  }

  lemma OperatorValue(doc: map<string, Value>, env: Env, name: string, op: string, e: Value, n: nat, c: Compiled<Expr>)
    requires Stores(env, doc) && CompileOperator(name, op, e, n) == Ok(c) && Placed(env, n, c.params)
    ensures IsLogical(Eval(c.conditions[0], env))
    ensures ReadsPath(name) && OperatorDomain(doc, name, op, e) && MatchOperator(doc, name, op, e).Holds?
      ==> (Accepts(c.conditions[0], env) <==> MatchOperator(doc, name, op, e).b)
  {
    hide MatchIn, EqualDomain, CompileOptions, CompileCompare, MatchCompare, ReadsPath, Find, Eval, PyEq, Chain;
    if IsComparison(op) {
      ComparisonEvaluates(doc, env, name, op, e, n, c);
    } else if op == "$in" {
      InValue(doc, env, name, e.items, n, c);
    } else {
      ExistsAgrees(doc, env, name, e, ExistsExpr(name).value);
    }
  }

  // ---- whole filters -----------------------------------------------------------------------------------------------

  /** Every condition is TRUE, FALSE or NULL, and, where meant to, they all hold exactly when the
      matcher says yes. */
  ghost predicate Agrees(conditions: seq<Expr>, env: Env, domain: bool, verdict: Verdict) {
    && AllLogical(conditions, env)
    && (domain && verdict.Holds? ==> ((forall e | e in conditions :: Accepts(e, env)) <==> verdict.b))
  }

  lemma AgreesJoin(front: seq<Expr>, back: seq<Expr>, env: Env, domain: bool, head: Verdict, tail: Verdict)
    requires Agrees(front, env, domain, head) && Agrees(back, env, domain, tail)
    ensures Agrees(front + back, env, domain, if head == Holds(true) then tail else head)
  {
    assert forall e :: e in front + back <==> e in front || e in back;
  }

  lemma AgreesWeaken(conditions: seq<Expr>, env: Env, wide: bool, narrow: bool, verdict: Verdict)
    requires Agrees(conditions, env, wide, verdict) && (narrow ==> wide)
    ensures Agrees(conditions, env, narrow, verdict)
  {
  }

  /** A parenthesised AND chain says what its members say. */
  lemma GroupAgrees(conditions: seq<Expr>, env: Env, domain: bool, verdict: Verdict)
    requires conditions != [] && Agrees(conditions, env, domain, verdict)
    ensures Agrees([Paren(Chain(AndOp, conditions))], env, domain, verdict)
  {
    AndChain(conditions, env);
    AgreesAlone(Paren(Chain(AndOp, conditions)), env, domain, verdict);
  }

  lemma AgreesOnNothing(env: Env)
    ensures forall d :: Agrees([], env, d, Holds(true))
  {
  }

  lemma AgreesAlone(e: Expr, env: Env, domain: bool, verdict: Verdict)
    requires IsLogical(Eval(e, env)) && (domain && verdict.Holds? ==> (Accepts(e, env) <==> verdict.b))
    ensures Agrees([e], env, domain, verdict)
  {
    assert e in [e];
  }

  predicate SpecDomain(doc: map<string, Value>, name: string, spec: seq<(string, Value)>) {
    ReadsPath(name) && forall x | x in spec :: OperatorDomain(doc, name, x.0, x.1)
  }

  lemma {:induction false} OperatorsAgree(doc: map<string, Value>, env: Env, name: string, spec: seq<(string, Value)>,
                                          n: nat, c: Compiled<Expr>)
    requires Stores(env, doc) && CompileOperators(name, spec, n) == Ok(c) && Placed(env, n, c.params)
    ensures Agrees(c.conditions, env, SpecDomain(doc, name, spec), MatchOperators(doc, name, spec))
    decreases spec
  {
    hide MatchOperator, OperatorDomain, CompileOperator, Get, Agrees, Eval;
    if spec == [] {
      AgreesOnNothing(env);
    } else {
      var (op, e) := spec[0];
      var head := CompileOperator(name, op, e, n).value;
      var tail := CompileOperators(name, spec[1..], n + |head.params|).value;
      PlacedParts(env, n, head.params, tail.params);
      OperatorValue(doc, env, name, op, e, n, head);
      OperatorsAgree(doc, env, name, spec[1..], n + |head.params|, tail);
      var domain := SpecDomain(doc, name, spec);
      AgreesWeaken(tail.conditions, env, SpecDomain(doc, name, spec[1..]), domain,
                   MatchOperators(doc, name, spec[1..]));
      assert spec[0] in spec;
      AgreesAlone(head.conditions[0], env, domain, MatchOperator(doc, name, op, e));
      assert head.conditions == [head.conditions[0]];
      AgreesJoin(head.conditions, tail.conditions, env, domain, MatchOperator(doc, name, op, e),
                 MatchOperators(doc, name, spec[1..]));
    }
  }

  lemma {:induction false} ClauseAgrees(doc: map<string, Value>, env: Env, cl: Clause, n: nat, c: Compiled<Expr>)
    requires Stores(env, doc) && CompileClause(cl, n) == Ok(c) && Placed(env, n, c.params)
    ensures Agrees(c.conditions, env, ClauseDomain(doc, cl), MatchClause(doc, cl))
    decreases cl, 1
  {
    hide CompileParts, MatchAll, MatchAny, FilterDomain, CompileEquals, CompileOperators, MatchOperators;
    hide Agrees, Flatten;
    match cl
    case All(parts) =>
      if parts != [] {
        var ess := CompileParts(parts, n).value.conditions;
        AllPartsAgree(doc, env, parts, n, CompileParts(parts, n).value);
        GroupAgrees(Flatten(ess), env, PartsDomain(doc, parts), MatchAll(doc, parts));
      } else {
        EmptyGroupAgrees(doc, env, cl, n, c);
      }
    case Any(parts) =>
      if parts != [] {
        var ess := CompileParts(parts, n).value.conditions;
        AnyPartAgrees(doc, env, parts, n, CompileParts(parts, n).value);
        OrChain(AndEach(ess), env);
        AgreesAlone(Paren(Chain(OrOp, AndEach(ess))), env, PartsDomain(doc, parts), MatchAny(doc, parts));
      } else {
        EmptyGroupAgrees(doc, env, cl, n, c);
      }
    case Equal(name, e) =>
      EqualsAgrees(doc, env, name, e, n, c);
      AgreesAlone(c.conditions[0], env, ReadsPath(name) && EqualDomain(Get(doc, name), e), MatchClause(doc, cl));
      assert c.conditions == [c.conditions[0]];
    case Braces(name, entries) =>
      if IsOperatorSpec(entries) {
        OperatorsAgree(doc, env, name, entries, n, c);
        assert entries[0] in entries;
        AgreesWeaken(c.conditions, env, SpecDomain(doc, name, entries), ClauseDomain(doc, cl), MatchClause(doc, cl));
      } else {
        DictAgrees(doc, env, cl, n, c);
      }
  }

  lemma DictAgrees(doc: map<string, Value>, env: Env, cl: Clause, n: nat, c: Compiled<Expr>)
    requires Stores(env, doc) && CompileClause(cl, n) == Ok(c) && Placed(env, n, c.params)
    requires cl.Braces? && !IsOperatorSpec(cl.entries)
    ensures Agrees(c.conditions, env, ClauseDomain(doc, cl), MatchClause(doc, cl))
  {
    hide CompileEquals, Eval, Find;
    EqualsValue(doc, env, cl.name, Dict(ToDict(cl.entries)), n, c);
  }

  lemma EmptyGroupAgrees(doc: map<string, Value>, env: Env, cl: Clause, n: nat, c: Compiled<Expr>)
    requires (cl.All? || cl.Any?) && cl.parts == [] && CompileClause(cl, n) == Ok(c)
    ensures Agrees(c.conditions, env, ClauseDomain(doc, cl), MatchClause(doc, cl))
  {
  }

  predicate PartsDomain(doc: map<string, Value>, parts: seq<Filter>) {
    forall f | f in parts :: FilterDomain(doc, f)
  }

  lemma {:induction false} AllPartsAgree(doc: map<string, Value>, env: Env, parts: seq<Filter>, n: nat,
                                         c: Compiled<seq<Expr>>)
    requires Stores(env, doc) && CompileParts(parts, n) == Ok(c) && Placed(env, n, c.params)
    ensures Agrees(Flatten(c.conditions), env, PartsDomain(doc, parts), MatchAll(doc, parts))
    decreases parts, 0
  {
    hide CompileFilter, MatchFilter, FilterDomain, Agrees, Eval, Chain;
    if parts == [] {
      AgreesOnNothing(env);
    } else {
      var f, rest := parts[0], parts[1..];
      var head := CompileFilter(f, n).value;
      var tail := CompileParts(rest, n + |head.params|).value;
      PlacedParts(env, n, head.params, tail.params);
      FilterEvaluates(doc, env, f, n, head);
      AllPartsAgree(doc, env, rest, n + |head.params|, tail);
      var domain := PartsDomain(doc, parts);
      AgreesWeaken(head.conditions, env, FilterDomain(doc, f), domain, MatchFilter(doc, f));
      AgreesWeaken(Flatten(tail.conditions), env, PartsDomain(doc, rest), domain, MatchAll(doc, rest));
      AgreesJoin(head.conditions, Flatten(tail.conditions), env, domain, MatchFilter(doc, f), MatchAll(doc, rest));
    }
  }

  lemma {:induction false} AnyPartAgrees(doc: map<string, Value>, env: Env, parts: seq<Filter>, n: nat,
                                         c: Compiled<seq<Expr>>)
    requires Stores(env, doc) && CompileParts(parts, n) == Ok(c) && Placed(env, n, c.params)
    ensures AllLogical(AndEach(c.conditions), env)
    ensures PartsDomain(doc, parts) && MatchAny(doc, parts).Holds?
      ==> ((exists e | e in AndEach(c.conditions) :: Accepts(e, env)) <==> MatchAny(doc, parts).b)
    decreases parts, 0
  {
    hide CompileFilter, MatchFilter, FilterDomain, Chain, Eval;
    if parts != [] {
      var f, rest := parts[0], parts[1..];
      var head := CompileFilter(f, n).value;
      var tail := CompileParts(rest, n + |head.params|).value;
      PlacedParts(env, n, head.params, tail.params);
      FilterEvaluates(doc, env, f, n, head);
      AnyPartAgrees(doc, env, rest, n + |head.params|, tail);
      var first := Chain(AndOp, head.conditions);
      assert AndEach(c.conditions) == [first] + AndEach(tail.conditions);
      assert forall e :: e in AndEach(c.conditions) <==> e == first || e in AndEach(tail.conditions);
    }
  }

  predicate ClausesDomain(doc: map<string, Value>, cs: seq<Clause>) {
    forall cl | cl in cs :: ClauseDomain(doc, cl)
  }

  lemma {:induction false} ClausesAgree(doc: map<string, Value>, env: Env, cs: seq<Clause>, n: nat, c: Compiled<Expr>)
    requires Stores(env, doc) && CompileClauses(cs, n) == Ok(c) && Placed(env, n, c.params)
    ensures Agrees(c.conditions, env, ClausesDomain(doc, cs), MatchClauses(doc, cs))
    decreases cs, 0
  {
    hide CompileClause, MatchClause, ClauseDomain, Agrees, Eval;
    if cs == [] {
      AgreesOnNothing(env);
    } else {
      var head := CompileClause(cs[0], n).value;
      var tail := CompileClauses(cs[1..], n + |head.params|).value;
      PlacedParts(env, n, head.params, tail.params);
      ClauseAgrees(doc, env, cs[0], n, head);
      ClausesAgree(doc, env, cs[1..], n + |head.params|, tail);
      var domain := ClausesDomain(doc, cs);
      AgreesWeaken(head.conditions, env, ClauseDomain(doc, cs[0]), domain, MatchClause(doc, cs[0]));
      AgreesWeaken(tail.conditions, env, ClausesDomain(doc, cs[1..]), domain, MatchClauses(doc, cs[1..]));
      AgreesJoin(head.conditions, tail.conditions, env, domain, MatchClause(doc, cs[0]), MatchClauses(doc, cs[1..]));
    }
  }

  /** Once its parameters are bound, a filter is TRUE, FALSE or NULL, and TRUE as the matcher says. */
  lemma {:induction false} FilterEvaluates(doc: map<string, Value>, env: Env, f: Filter, n: nat, c: Compiled<Expr>)
    requires Stores(env, doc) && CompileFilter(f, n) == Ok(c) && Placed(env, n, c.params)
    ensures Agrees(c.conditions, env, FilterDomain(doc, f), MatchFilter(doc, f))
    ensures IsLogical(Eval(Chain(AndOp, c.conditions), env))
    ensures FilterDomain(doc, f) && MatchFilter(doc, f).Holds?
      ==> (Accepts(Chain(AndOp, c.conditions), env) <==> MatchFilter(doc, f).b)
    decreases f, 0
  {
    hide CompileClause, MatchClause, ClauseDomain;
    ClausesAgree(doc, env, f.clauses, n, CompileClauses(f.clauses, n).value);
    AndChain(c.conditions, env);
  }

  /** A statement with the filter's parameters is an error exactly when it cannot run with them, as when an operand
      holds U+0000; else it accepts the record exactly when the matcher does. */
  lemma FilterAgrees(doc: map<string, Value>, env: Env, f: Filter, n: nat, c: Compiled<Expr>)
    requires Stores(env, doc) && CompileFilter(f, n) == Ok(c) && Placed(env, n, c.params)
    ensures IsLogical(Run(Chain(AndOp, c.conditions), env)) <==> CanRun(env.params)
    ensures CanRun(env.params) ==> OperandsBind(f)
    ensures FilterDomain(doc, f) && MatchFilter(doc, f).Holds? ==>
      (Run(Chain(AndOp, c.conditions), env) == B(true) <==> CanRun(env.params) && MatchFilter(doc, f).b)
  {
    hide CompileFilter, MatchFilter, FilterDomain, Eval, Chain, AllBind, OperandsBind, Placed;
    FilterEvaluates(doc, env, f, n, c);
    FilterBinds(f, n, c);
    PlacedBind(env, n, c.params);
  }
}
