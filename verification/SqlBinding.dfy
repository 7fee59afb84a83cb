/** Which filters' operands PostgreSQL takes as parameters: all but those that hold U+0000. */
module SqlBinding {
  import opened Lib
  import opened Datetimes
  import opened Values
  import opened SqlGrammar
  import opened SqlEval
  import opened SqlFilter

  /** What the operator binds holds no U+0000; the operand of `$exists` is not bound. */
  predicate OperandBinds(op: string, e: Value) {
    op != "$exists" ==> NulFree(e)
  }

  predicate SpecBinds(spec: seq<(string, Value)>) {
    forall x | x in spec :: OperandBinds(x.0, x.1)
  }

  /** No operand the filter binds, at any depth, holds U+0000 in a text or a key. */
  predicate OperandsBind(f: Filter)
    decreases f, 0
  {
    forall c | c in f.clauses :: ClauseBinds(c)
  }

  predicate ClauseBinds(c: Clause)
    decreases c, 1
  {
    match c
    case All(parts) => forall f | f in parts :: OperandsBind(f)
    case Any(parts) => forall f | f in parts :: OperandsBind(f)
    case Equal(_, e) => NulFree(e)
    case Braces(_, entries) => if IsOperatorSpec(entries) then SpecBinds(entries) else NulFree(Dict(ToDict(entries)))
  }

  lemma BindBoth(a: seq<Bound>, b: seq<Bound>)
    ensures AllBind(a + b) <==> AllBind(a) && AllBind(b)
  {
    hide CanBind;
    assert forall p :: p in a + b <==> p in a || p in b;
  }

  lemma BindOne(b: Bound)
    ensures AllBind([b]) <==> CanBind(b)
  {
    assert b in [b];
  }

  lemma EqualsBinds(name: string, v: Value, n: nat)
    requires CompileEquals(name, v, n).Ok?
    ensures AllBind(CompileEquals(name, v, n).value.params) <==> NulFree(v)
  {
    hide IsJsonb, Prepare;
    PreparedIsJsonb(v);
    BindOne(BoundJson(Prepare(v)));
  }

  lemma CompareBinds(name: string, op: string, v: Value, n: nat)
    requires IsComparison(op) && CompileCompare(name, op, v, n).Ok?
    ensures AllBind(CompileCompare(name, op, v, n).value.params) <==> NulFree(v)
  {
    hide Encode;
    match v
    case Num(x) => BindOne(BoundNum(x));
    case Text(s) => BindOne(BoundText(s));
    case Time(t) =>
      EncodedIsNulFree(t);
      BindOne(BoundText(Encode(t)));
  }

  lemma {:induction false} OptionsBind(name: string, options: seq<Value>, n: nat)
    requires CompileOptions(name, options, n).Ok?
    ensures AllBind(CompileOptions(name, options, n).value.params) <==> NulFree(List(options))
  {
    hide CompileEquals, CanBind;
    if options != [] {
      var head := CompileEquals(name, options[0], n).value;
      var tail := CompileOptions(name, options[1..], n + |head.params|).value;
      EqualsBinds(name, options[0], n);
      OptionsBind(name, options[1..], n + |head.params|);
      BindBoth(head.params, tail.params);
      assert options == [options[0]] + options[1..];
    }
  }

  lemma OperatorBinds(name: string, op: string, v: Value, n: nat)
    requires CompileOperator(name, op, v, n).Ok?
    ensures AllBind(CompileOperator(name, op, v, n).value.params) <==> OperandBinds(op, v)
  {
    hide CompileCompare, CompileOptions, ExistsExpr, Chain, NulFree;
    if IsComparison(op) {
      CompareBinds(name, op, v, n);
    } else if op == "$in" {
      OptionsBind(name, v.items, n);
    }
  }

  lemma {:induction false} OperatorsBind(name: string, spec: seq<(string, Value)>, n: nat)
    requires CompileOperators(name, spec, n).Ok?
    ensures AllBind(CompileOperators(name, spec, n).value.params) <==> SpecBinds(spec)
  {
    hide CompileOperator, OperandBinds, CanBind;
    if spec != [] {
      var head := CompileOperator(name, spec[0].0, spec[0].1, n).value;
      OperatorBinds(name, spec[0].0, spec[0].1, n);
      OperatorsBind(name, spec[1..], n + |head.params|);
      BindBoth(head.params, CompileOperators(name, spec[1..], n + |head.params|).value.params);
      assert spec == [spec[0]] + spec[1..];
    }
  }

  lemma {:induction false} ClauseParamsBind(c: Clause, n: nat)
    requires CompileClause(c, n).Ok?
    ensures AllBind(CompileClause(c, n).value.params) <==> ClauseBinds(c)
    decreases c, 1
  {
    hide CompileParts, CompileEquals, CompileOperators, OperandsBind, SpecBinds, NulFree, CanBind, Chain;
    match c
    case All(parts) => PartsBind(parts, n);
    case Any(parts) => PartsBind(parts, n);
    case Equal(name, v) => EqualsBinds(name, v, n);
    case Braces(name, entries) =>
      if IsOperatorSpec(entries) {
        OperatorsBind(name, entries, n);
      } else {
        EqualsBinds(name, Dict(ToDict(entries)), n);
      }
  }

  lemma {:induction false} PartsBind(parts: seq<Filter>, n: nat)
    requires CompileParts(parts, n).Ok?
    ensures AllBind(CompileParts(parts, n).value.params) <==> forall f | f in parts :: OperandsBind(f)
    decreases parts, 0
  {
    hide CompileFilter, OperandsBind, CanBind;
    if parts != [] {
      var head := CompileFilter(parts[0], n).value;
      FilterBinds(parts[0], n, head);
      PartsBind(parts[1..], n + |head.params|);
      BindBoth(head.params, CompileParts(parts[1..], n + |head.params|).value.params);
      assert parts == [parts[0]] + parts[1..];
    }
  }

  lemma {:induction false} ClausesBind(cs: seq<Clause>, n: nat)
    requires CompileClauses(cs, n).Ok?
    ensures AllBind(CompileClauses(cs, n).value.params) <==> forall c | c in cs :: ClauseBinds(c)
    decreases cs, 0
  {
    hide CompileClause, ClauseBinds, CanBind;
    if cs != [] {
      var head := CompileClause(cs[0], n).value;
      ClauseParamsBind(cs[0], n);
      ClausesBind(cs[1..], n + |head.params|);
      BindBoth(head.params, CompileClauses(cs[1..], n + |head.params|).value.params);
      assert cs == [cs[0]] + cs[1..];
    }
  }

  /** PostgreSQL takes all the parameters a filter binds exactly when none of its operands holds U+0000. */
  lemma {:induction false} FilterBinds(f: Filter, n: nat, c: Compiled<Expr>)
    requires CompileFilter(f, n) == Ok(c)
    ensures AllBind(c.params) <==> OperandsBind(f)
    decreases f, 0
  {
    ClausesBind(f.clauses, n);
  }
}
