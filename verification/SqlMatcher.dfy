/** The reference meaning of a filter: the in-memory matcher, with Python's comparisons. */
module SqlMatcher {
  import opened Lib
  import opened Datetimes
  import opened Values
  import opened SqlLiterals
  import opened SqlFilter

  /** Python answers true or false, or raises `TypeError`. */
  datatype Verdict = Holds(b: bool) | TypeError

  /** The value at a path of nested dicts; a one-part path is plain `doc.get(key)`. */
  function Lookup(v: Value, path: seq<string>): Option<Value> {
    if path == [] then Some(v)
    else if v.Dict? && path[0] in v.fields then Lookup(v.fields[path[0]], path[1..])
    else None
  }

  function Find(doc: map<string, Value>, name: string): Option<Value> {
    Lookup(Dict(doc), Split(name))
  }

  /** `doc.get(name)`: a missing field reads as `None`. */
  function Get(doc: map<string, Value>, name: string): Value {
    var found := Find(doc, name);
    if found.Some? then found.value else Nil
  }

  /** `value == expected or (isinstance(value, list) and expected in value)`. */
  predicate MatchEqual(v: Value, e: Value) {
    PyEq(v, e) || (v.List? && exists x | x in v.items :: PyEq(x, e))
  }

  function Lift(r: Option<bool>, negate: bool): Verdict {
    if r.None? then TypeError else Holds(r.value != negate)
  }

  predicate Unhashable(v: Value) {
    v.List? || v.Dict?
  }

  /** `v in e or (isinstance(v, list) and bool(set(v) & set(e)))`. */
  function MatchIn(v: Value, e: seq<Value>): Verdict {
    if exists x | x in e :: PyEq(v, x) then Holds(true)
    else if !v.List? then Holds(false)
    else if (exists x | x in v.items :: Unhashable(x)) || (exists x | x in e :: Unhashable(x)) then TypeError
    else Holds(exists x | x in v.items :: exists y | y in e :: PyEq(x, y))
  }

  /** `v is not None and v < e`, and likewise for `<=` and `>`. */
  function MatchCompare(v: Value, op: string, e: Value): Verdict
    requires op == "$lt" || op == "$lte" || op == "$gt"
  {
    if v.Nil? then Holds(false)
    else if op == "$lt" then Lift(PyLess(v, e), false)
    else if op == "$lte" then Lift(PyLess(e, v), true)
    else Lift(PyLess(e, v), false)
  }

  function MatchOperator(doc: map<string, Value>, name: string, op: string, e: Value): Verdict {
    if op == "$lt" || op == "$lte" || op == "$gt" then MatchCompare(Get(doc, name), op, e)
    else if op == "$exists" then Holds(PyEq(Bool(Find(doc, name).Some?), e))
    else if op == "$in" && e.List? then MatchIn(Get(doc, name), e.items)
    else TypeError
  }

  function MatchOperators(doc: map<string, Value>, name: string, spec: seq<(string, Value)>): Verdict {
    if spec == [] then Holds(true)
    else
      var head := MatchOperator(doc, name, spec[0].0, spec[0].1);
      if head == Holds(true) then MatchOperators(doc, name, spec[1..]) else head
  }

  function MatchClause(doc: map<string, Value>, c: Clause): Verdict
    decreases c, 1
  {
    match c
    case All(parts) => MatchAll(doc, parts)
    case Any(parts) => MatchAny(doc, parts)
    case Equal(name, e) => Holds(MatchEqual(Get(doc, name), e))
    case Braces(name, entries) =>
      if exists x | x in entries :: x.0 != "" && x.0[0] == '$' then MatchOperators(doc, name, entries)
      else Holds(MatchEqual(Get(doc, name), Dict(ToDict(entries))))
  }

  function MatchAll(doc: map<string, Value>, parts: seq<Filter>): Verdict
    decreases parts, 0
  {
    if parts == [] then Holds(true)
    else
      var head := MatchFilter(doc, parts[0]);
      if head == Holds(true) then MatchAll(doc, parts[1..]) else head
  }

  function MatchAny(doc: map<string, Value>, parts: seq<Filter>): Verdict
    decreases parts, 0
  {
    if parts == [] then Holds(false)
    else
      var head := MatchFilter(doc, parts[0]);
      if head == Holds(false) then MatchAny(doc, parts[1..]) else head
  }

  function MatchClauses(doc: map<string, Value>, cs: seq<Clause>): Verdict
    decreases cs, 0
  {
    if cs == [] then Holds(true)
    else
      var head := MatchClause(doc, cs[0]);
      if head == Holds(true) then MatchClauses(doc, cs[1..]) else head
  }

  /** `_matches(doc, filters)`. */
  function MatchFilter(doc: map<string, Value>, f: Filter): Verdict
    decreases f, 0
  {
    MatchClauses(doc, f.clauses)
  }

  lemma OneClause(doc: map<string, Value>, c: Clause)
    ensures MatchFilter(doc, Filter([c])) == MatchClause(doc, c)
  {
    assert [c][1..] == [];
    assert MatchClauses(doc, []) == Holds(true);
  }

  lemma TwoParts(doc: map<string, Value>, f: Filter, g: Filter)
    requires MatchFilter(doc, f).Holds? && MatchFilter(doc, g).Holds?
    ensures MatchAny(doc, [f, g]) == Holds(MatchFilter(doc, f).b || MatchFilter(doc, g).b)
    ensures MatchAll(doc, [f, g]) == Holds(MatchFilter(doc, f).b && MatchFilter(doc, g).b)
  {
    assert [f, g][1..] == [g] && [g][1..] == [];
    assert MatchAny(doc, []) == Holds(false) && MatchAll(doc, []) == Holds(true);
    assert MatchAny(doc, [g]) == MatchFilter(doc, g) && MatchAll(doc, [g]) == MatchFilter(doc, g);
  }

  lemma AnyIsMatchAny(doc: map<string, Value>, parts: seq<Filter>)
    ensures MatchClause(doc, Any(parts)) == MatchAny(doc, parts)
    ensures MatchClause(doc, All(parts)) == MatchAll(doc, parts)
  {
  }

  // ---- where the two agree ---------------------------------------------------------------------------------

  /** Python takes a bool and a number for equal; JSON does not. */
  predicate Conflated(v: Value, e: Value) {
    IsNumeric(v) && IsNumeric(e) && v.Bool? != e.Bool? && AsNumber(v) == AsNumber(e)
  }

  /** A datetime and the very text it is stored as: different to Python, one and the same once stored. */
  predicate StoredAlike(v: Value, e: Value) {
    (v.Time? && e.Text? && Encode(v.t) == e.s) || (v.Text? && e.Time? && v.s == Encode(e.t))
  }

  /** The scalars that SQL and Python judge differently. */
  predicate Mixed(v: Value, e: Value) {
    Conflated(v, e) || StoredAlike(v, e)
  }

  /** The values for which equality with a scalar operand comes out differently. */
  predicate EqualityDiffers(v: Value, e: Value) {
    if e.Nil? then v.List? && Nil in v.items
    else Mixed(v, e) || (v.List? && e !in v.items && exists x | x in v.items :: Mixed(x, e))
  }

  predicate EqualDomain(v: Value, e: Value) {
    IsScalar(e) && !EqualityDiffers(v, e)
  }

  /** Python orders a bool among the numbers; SQL only accepts numbers there. */
  predicate ComparisonDiffers(v: Value, op: string, e: Value)
    requires op == "$lt" || op == "$lte" || op == "$gt"
  {
    v.Bool? && MatchCompare(v, op, e) == Holds(true)
  }

  /** The operands Python takes for True or False. */
  predicate IsTruthValue(e: Value) {
    e.Bool? || e == Num(0.0) || e == Num(1.0)
  }

  /** SQL asks whether the operand is true, the matcher whether it equals True or False. */
  predicate ExistsDiffers(present: bool, e: Value) {
    !IsTruthValue(e) && Truthy(e) == present
  }

  predicate OperatorDomain(doc: map<string, Value>, name: string, op: string, e: Value) {
    if op == "$exists" then !ExistsDiffers(Find(doc, name).Some?, e)
    else if op == "$in" then e.List? && forall x | x in e.items :: EqualDomain(Get(doc, name), x)
    else op == "$lt" || op == "$lte" || op == "$gt" ==> !ComparisonDiffers(Get(doc, name), op, e)
  }

  /** The operator writes no unchecked name with a quote or U+0000 in it: only `$exists` on an undotted name could. */
  predicate OperatorNamePlain(name: string, op: string) {
    op == "$exists" && |Split(name)| == 1 ==> PlainText(name)
  }

  predicate ClauseDomain(doc: map<string, Value>, c: Clause)
    decreases c, 1
  {
    match c
    case All(parts) => forall f | f in parts :: FilterDomain(doc, f)
    case Any(parts) => parts != [] && forall f | f in parts :: FilterDomain(doc, f)
    case Equal(name, e) => ReadsPath(name) && EqualDomain(Get(doc, name), e)
    case Braces(name, entries) =>
      && IsOperatorSpec(entries) && ReadsPath(name)
      && forall x | x in entries :: OperatorDomain(doc, name, x.0, x.1) && OperatorNamePlain(name, x.0)
  }

  predicate FilterDomain(doc: map<string, Value>, f: Filter)
    decreases f, 0
  {
    forall c | c in f.clauses :: ClauseDomain(doc, c)
  }

  /** No name that is written unchecked has a quote or U+0000 in it, anywhere in the filter. */
  predicate NamesPlain(f: Filter)
    decreases f, 0
  {
    forall c | c in f.clauses :: ClauseNamesPlain(c)
  }

  predicate ClauseNamesPlain(c: Clause)
    decreases c, 1
  {
    match c
    case All(parts) => forall f | f in parts :: NamesPlain(f)
    case Any(parts) => forall f | f in parts :: NamesPlain(f)
    case Equal(_, _) => true
    case Braces(name, entries) =>
      IsOperatorSpec(entries) ==> forall x | x in entries :: OperatorNamePlain(name, x.0)
  }

  // ---- which filters compile -----------------------------------------------------------------------------

  predicate GoodName(name: string) {
    forall part | part in Split(name) :: IsIdentifier(part)
  }

  /** One to 63 letters, digits and underscores, not beginning with a digit. */
  predicate IsPlainName(core: string) {
    && 1 <= |core| <= 63 && !('0' <= core[0] <= '9')
    && forall c | c in core :: 'A' <= c <= 'Z' || 'a' <= c <= 'z' || '0' <= c <= '9' || c == '_'
  }

  lemma WordMeans(core: string)
    ensures IsWord(core) && |core| <= 63 <==> IsPlainName(core)
  {
    assert forall i | 0 <= i < |core| :: core[i] in core;
  }

  /** An identifier is such a name, with a newline after it or none. */
  lemma IdentifierMeans(name: string)
    ensures IsIdentifier(name) <==>
      IsPlainName(name) || (name != "" && name[|name| - 1] == '\n' && IsPlainName(name[..|name| - 1]))
  {
    hide IsWord;
    WordMeans(Core(name));
    if name != "" && name[|name| - 1] == '\n' {
      assert name[|name| - 1] in name && !IsPlainName(name);
    }
  }

  /** A name is its parts with dots between them, and no part has a dot. */
  lemma SplitMeans(name: string, parts: seq<string>)
    ensures Split(name) == parts <==> parts != [] && JoinWith(parts, '.') == name && forall p | p in parts :: '.' !in p
  {
    JoinOfSplit(name, '.');
    if parts != [] && forall p | p in parts :: '.' !in p {
      SplitOfJoin(parts, '.');
    }
  }

  predicate GoodOperator(name: string, op: string, e: Value) {
    if op == "$exists" then |Split(name)| == 1 || GoodName(name)
    else if op == "$in" then e.List? && (e.items == [] || GoodName(name))
    else (op == "$lt" || op == "$lte" || op == "$gt") && GoodName(name) && (e.Num? || e.Text? || e.Time?)
  }

  predicate GoodClause(c: Clause)
    decreases c, 1
  {
    match c
    case All(parts) => forall f | f in parts :: GoodFilter(f)
    case Any(parts) => forall f | f in parts :: GoodFilter(f)
    case Equal(name, _) => GoodName(name)
    case Braces(name, entries) =>
      if entries != [] && forall x | x in entries :: x.0 != "" && x.0[0] == '$'
      then forall x | x in entries :: GoodOperator(name, x.0, x.1) else GoodName(name)
  }

  /** Known operators, comparable operands and plain field names throughout. */
  predicate GoodFilter(f: Filter)
    decreases f, 0
  {
    forall c | c in f.clauses :: GoodClause(c)
  }
}
