/** Python-side record values, the JSON they are stored as, and the codec between the two. */
module Values {
  import opened Lib
  import opened Datetimes

  /** A value of a record or of a filter operand, as the application sees it. */
  datatype Value =
    | Nil
    | Bool(b: bool)
    | Num(n: real)
    | Text(s: string)
    | Time(t: Stamp)
    | List(items: seq<Value>)
    | Dict(fields: map<string, Value>)

  /** What a JSONB column holds. */
  datatype Json =
    | JNull
    | JBool(b: bool)
    | JNum(n: real)
    | JStr(s: string)
    | JArr(items: seq<Json>)
    | JObj(fields: map<string, Json>)

  /** `_prepare`: datetimes anywhere in a value become stored text. */
  function Prepare(v: Value): Json {
    match v
    case Nil => JNull
    case Bool(b) => JBool(b)
    case Num(n) => JNum(n)
    case Text(s) => JStr(s)
    case Time(t) => JStr(Encode(t))
    case List(items) => JArr(PrepareAll(items))
    case Dict(fields) => JObj(map k | k in fields :: Prepare(fields[k]))
  }

  function PrepareAll(items: seq<Value>): (r: seq<Json>)
    ensures |r| == |items|
    ensures forall i | 0 <= i < |items| :: r[i] == Prepare(items[i])
  {
    if items == [] then [] else [Prepare(items[0])] + PrepareAll(items[1..])
  }

  /** `decode`: text of the stored timestamp shape becomes a datetime; impossible dates raise. */
  function Decode(j: Json): Result<Value> {
    match j
    case JNull => Ok(Nil)
    case JBool(b) => Ok(Bool(b))
    case JNum(n) => Ok(Num(n))
    case JStr(s) =>
      if IsStampText(s) then (var t :- FromIso(s); Ok(Time(t))) else Ok(Text(s))
    case JArr(items) => var vs :- DecodeAll(items); Ok(List(vs))
    case JObj(fields) =>
      if forall k | k in fields :: Decode(fields[k]).Ok?
      then Ok(Dict(map k | k in fields :: Decode(fields[k]).value))
      else Err
  }

  function DecodeAll(items: seq<Json>): (r: Result<seq<Value>>)
    ensures r.Ok? ==> |r.value| == |items|
  {
    if items == [] then Ok([])
    else
      var v :- Decode(items[0]);
      var vs :- DecodeAll(items[1..]);
      Ok([v] + vs)
  }

  /** No plain text anywhere in `v` looks like a stored timestamp. */
  predicate NoStampText(v: Value) {
    match v
    case Text(s) => !IsStampText(s)
    case List(items) => forall x | x in items :: NoStampText(x)
    case Dict(fields) => forall k | k in fields :: NoStampText(fields[k])
    case _ => true
  }

  lemma DecodeFields(fields: map<string, Value>)
    requires forall k | k in fields :: Decode(Prepare(fields[k])) == Ok(fields[k]) <==> NoStampText(fields[k])
    ensures Decode(Prepare(Dict(fields))) == Ok(Dict(fields)) <==> NoStampText(Dict(fields))
  {
    var stored := Prepare(Dict(fields)).fields;
    var back := Decode(JObj(stored));
    if NoStampText(Dict(fields)) {
      assert forall k | k in stored :: stored[k] == Prepare(fields[k]) && Decode(stored[k]).Ok?;
      assert back.Ok? && back.value.fields == fields;
    } else {
      var k :| k in fields && !NoStampText(fields[k]);
      assert k in stored && (back.Ok? ==> back.value.fields[k] == Decode(stored[k]).value != fields[k]);
    }
  }

  /** Decoding what was stored gives the value back exactly when no plain text looks like a
      stored timestamp; otherwise the read changes the value or raises. */
  lemma {:induction false} DecodeInvertsPrepare(v: Value)
    ensures Decode(Prepare(v)) == Ok(v) <==> NoStampText(v)
    decreases v
  {
    hide Encode, FromIso, IsStampText, DecodeAll, PrepareAll;
    match v
    case Time(t) => FromIsoOfEncode(t);
    case List(items) => DecodeAllInvertsPrepareAll(items);
    case Dict(fields) =>
      forall k | k in fields
        ensures Decode(Prepare(fields[k])) == Ok(fields[k]) <==> NoStampText(fields[k])
      {
        DecodeInvertsPrepare(fields[k]);
      }
      DecodeFields(fields);
    case _ =>
  }

  lemma {:induction false} DecodeAllInvertsPrepareAll(items: seq<Value>)
    ensures DecodeAll(PrepareAll(items)) == Ok(items) <==> forall x | x in items :: NoStampText(x)
    decreases items
  {
    if items != [] {
      DecodeInvertsPrepare(items[0]);
      DecodeAllInvertsPrepareAll(items[1..]);
      var stored := PrepareAll(items);
      assert stored[0] == Prepare(items[0]) && stored[1..] == PrepareAll(items[1..]);
      assert items == [items[0]] + items[1..];
      assert forall x :: x in items <==> x == items[0] || x in items[1..];
      if DecodeAll(stored) == Ok(items) {
        assert items[0] == Decode(stored[0]).value && items[1..] == DecodeAll(stored[1..]).value;
      }
    }
  }

  /** A plain text of the stored shape makes the record unreadable, unless it is the encoding of a datetime. */
  lemma StampTextReads(s: string)
    requires IsStampText(s)
    ensures Decode(JStr(s)).Ok? <==> exists t: Stamp :: Encode(t) == s
  {
    hide Encode, FromIso, IsStampText;
    if FromIso(s).Ok? {
      EncodeOfFromIso(s);
    }
    forall t: Stamp | Encode(t) == s
      ensures FromIso(s).Ok?
    {
      FromIsoOfEncode(t);
    }
  }

  // ---- what can be stored ----------------------------------------------------------------------

  /** What a `jsonb` value can hold (section 8.14 of the PostgreSQL documentation): no U+0000 in a text or a key. */
  predicate IsJsonb(j: Json) {
    match j
    case JStr(s) => NulFreeText(s)
    case JArr(items) => forall x | x in items :: IsJsonb(x)
    case JObj(fields) => forall k | k in fields :: NulFreeText(k) && IsJsonb(fields[k])
    case _ => true
  }

  /** No text and no key anywhere in `v` holds U+0000. */
  predicate NulFree(v: Value) {
    match v
    case Text(s) => NulFreeText(s)
    case List(items) => forall x | x in items :: NulFree(x)
    case Dict(fields) => forall k | k in fields :: NulFreeText(k) && NulFree(fields[k])
    case _ => true
  }

  lemma EncodedIsNulFree(t: Stamp)
    ensures NulFreeText(Encode(t))
  {
    hide Encode;
    EncodedIsPrintable(t);
  }

  lemma {:induction false} PreparedIsJsonb(v: Value)
    ensures IsJsonb(Prepare(v)) <==> NulFree(v)
    decreases v
  {
    hide Encode, NulFreeText;
    match v
    case Time(t) => EncodedIsNulFree(t);
    case List(items) =>
      forall x | x in items
        ensures IsJsonb(Prepare(x)) <==> NulFree(x)
      {
        PreparedIsJsonb(x);
      }
      ItemsAreJsonb(items);
    case Dict(fields) =>
      forall k | k in fields
        ensures IsJsonb(Prepare(fields[k])) <==> NulFree(fields[k])
      {
        PreparedIsJsonb(fields[k]);
      }
      FieldsAreJsonb(fields);
    case _ =>
  }

  lemma ItemsAreJsonb(items: seq<Value>)
    requires forall x | x in items :: IsJsonb(Prepare(x)) <==> NulFree(x)
    ensures IsJsonb(Prepare(List(items))) <==> NulFree(List(items))
  {
    var stored := PrepareAll(items);
    assert Prepare(List(items)) == JArr(stored);
    assert forall i | 0 <= i < |items| :: stored[i] == Prepare(items[i]) && items[i] in items && stored[i] in stored;
  }

  lemma FieldsAreJsonb(fields: map<string, Value>)
    requires forall k | k in fields :: IsJsonb(Prepare(fields[k])) <==> NulFree(fields[k])
    ensures IsJsonb(Prepare(Dict(fields))) <==> NulFree(Dict(fields))
  {
    var stored := Prepare(Dict(fields)).fields;
    assert stored.Keys == fields.Keys && forall k | k in fields :: stored[k] == Prepare(fields[k]);
  }

  /** `$1::jsonb`: refused for a value that holds U+0000. */
  function Store(v: Value): Result<Json> {
    if IsJsonb(Prepare(v)) then Ok(Prepare(v)) else Err
  }

  /** A value is stored and read back as itself exactly when no plain text in it looks like a stored timestamp and
      neither a text nor a key holds U+0000. */
  lemma StoredReadsBack(v: Value)
    ensures (Store(v).Ok? && Decode(Store(v).value) == Ok(v)) <==> NulFree(v) && NoStampText(v)
  {
    hide IsJsonb, Decode, Prepare, NulFree, NoStampText;
    PreparedIsJsonb(v);
    DecodeInvertsPrepare(v);
  }

  // ---- Python comparisons ----------------------------------------------------------------------

  predicate IsNumeric(v: Value) {
    v.Num? || v.Bool?
  }

  /** Python's bool is an int: `True == 1` and `False == 0`. */
  function AsNumber(v: Value): real
    requires IsNumeric(v)
  {
    if v.Num? then v.n else if v.b then 1.0 else 0.0
  }

  /** Python `==` on record values. */
  predicate PyEq(a: Value, b: Value) {
    if IsNumeric(a) && IsNumeric(b) then AsNumber(a) == AsNumber(b)
    else match (a, b)
      case (List(xs), List(ys)) => |xs| == |ys| && forall i | 0 <= i < |xs| :: PyEq(xs[i], ys[i])
      case (Dict(m), Dict(n)) => m.Keys == n.Keys && forall k | k in m && k in n :: PyEq(m[k], n[k])
      case _ => a == b
  }

  /** Python `<`; `None` stands for `TypeError`. Lists order too in Python, but no filter compares them. */
  function PyLess(a: Value, b: Value): Option<bool> {
    if IsNumeric(a) && IsNumeric(b) then Some(AsNumber(a) < AsNumber(b))
    else match (a, b)
      case (Text(s), Text(t)) => Some(TextLess(s, t))
      case (Time(s), Time(t)) => Some(Instant(s) < Instant(t))
      case _ => None
  }

  predicate IsScalar(v: Value) {
    !v.List? && !v.Dict?
  }
}
