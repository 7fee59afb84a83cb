/** What a new set of rows changes in a sheet, and the text that must not be taken for a formula. */
module SheetEdits {
  import opened Lib

  /** A cell's value. `Other` is any other Python object, given by its text; `Infinite` and `NotANumber`
      are the floats that are not finite. */
  datatype Value =
    | Nil
    | Flag(b: bool)
    | Number(n: real)
    | Infinite(negative: bool)
    | NotANumber
    | Text(s: string)
    | Other(repr: string)

  type Rows = seq<seq<Value>>

  /** Cell coordinates are (row, column), both from 1. */
  type Edits = map<(nat, nat), Value>

  /** Python `a != b`: `True` equals 1, and a NaN differs from everything, itself included. */
  predicate Differs(a: Value, b: Value) {
    if a.NotANumber? || b.NotANumber? then true
    else AsNumber(a) != AsNumber(b)
  }

  function AsNumber(v: Value): Value {
    if v.Flag? then Number(if v.b then 1.0 else 0.0) else v
  }

  /** Equal are the same values, but no NaN, and True and False with the numbers one and zero. */
  lemma DiffersMeans(a: Value, b: Value)
    ensures !Differs(a, b) <==>
      || (a == b && a != NotANumber)
      || (a == Flag(true) && b == Number(1.0)) || (a == Number(1.0) && b == Flag(true))
      || (a == Flag(false) && b == Number(0.0)) || (a == Number(0.0) && b == Flag(false))
  {
  }

  // ---- neutralize ----------------------------------------------------------------------------------------

  /** `\d+\.?\d*|\.\d+` */
  predicate Mantissa(s: string) {
    exists i | 0 <= i <= |s| :: AllDecimal(s[..i])
      && if i == |s| then i > 0 else s[i] == '.' && AllDecimal(s[i + 1..]) && |s| > 1
  }

  predicate Signed(s: string) {
    s != "" && (s[0] == '+' || s[0] == '-')
  }

  /** `([eE][+-]?\d+)?` */
  predicate Exponent(s: string) {
    s == "" || ((s[0] == 'e' || s[0] == 'E') && |s| > 1
      && var digits := s[if Signed(s[1..]) then 2 else 1..]; digits != "" && AllDecimal(digits))
  }

  /** `[+-]?(\d+\.?\d*|\.\d+)([eE][+-]?\d+)?`, matching all of the text. */
  predicate NumberLike(s: string) {
    exists i | 0 <= i <= |Unsigned(s)| :: SplitsNumber(Unsigned(s), i)
  }

  function Unsigned(s: string): string {
    if Signed(s) then s[1..] else s
  }

  predicate SplitsNumber(s: string, i: nat) {
    i <= |s| && Mantissa(s[..i]) && Exponent(s[i..])
  }

  /** Text that a spreadsheet program would run as a formula. */
  predicate RunsAsFormula(s: string) {
    s != "" && (s[0] == '=' || s[0] == '@' || (Signed(s) && !NumberLike(s)))
  }

  /** A sign or none; digits, a dot or none, and digits, with at least one digit and none after a missing dot. */
  predicate IsDecimalNumber(sign: string, whole: string, dot: string, fraction: string) {
    && (sign == "" || sign == "+" || sign == "-") && (dot == "" || dot == ".")
    && AllDecimal(whole) && AllDecimal(fraction) && (whole != "" || fraction != "") && (dot == "" ==> fraction == "")
  }

  predicate IsPower(e: string, sign: string, digits: string) {
    && (e == "e" || e == "E") && (sign == "" || sign == "+" || sign == "-")
    && digits != "" && AllDecimal(digits)
  }

  lemma PartsOfMantissa(s: string) returns (whole: string, dot: string, fraction: string)
    requires Mantissa(s)
    ensures s == whole + dot + fraction && IsDecimalNumber("", whole, dot, fraction)
  {
    hide IsDecimal;
    var i :| 0 <= i <= |s| && AllDecimal(s[..i])
      && if i == |s| then i > 0 else s[i] == '.' && AllDecimal(s[i + 1..]) && |s| > 1;
    if i == |s| {
      whole, dot, fraction := s, "", "";
      assert s[..i] == s;
    } else {
      whole, dot, fraction := s[..i], ".", s[i + 1..];
    }
  }

  lemma MantissaOfParts(whole: string, dot: string, fraction: string)
    requires IsDecimalNumber("", whole, dot, fraction)
    ensures Mantissa(whole + dot + fraction)
  {
    hide IsDecimal, AllDecimal;
    var s, i := whole + dot + fraction, |whole|;
    assert s[..i] == whole;
    if dot == "." {
      assert s[i] == '.' && s[i + 1..] == fraction;
    } else {
      assert s == whole;
    }
  }

  lemma ExponentMeans(s: string)
    ensures Exponent(s) <==> IsPowerText(s)
  {
    hide IsDecimal;
    if Exponent(s) && s != "" {
      var e, rest := s[..1], s[1..];
      assert s == e + rest && e == [s[0]];
      if Signed(rest) {
        assert s == e + rest[..1] + s[2..] && rest[..1] == [rest[0]] && IsPower(e, rest[..1], s[2..]);
      } else {
        assert s == e + "" + s[1..] && IsPower(e, "", s[1..]);
      }
    }
    if e, sign, digits :| s == e + sign + digits && IsPower(e, sign, digits) {
      assert s[0] == e[0] && s[1..] == sign + digits;
      if sign == "" {
        NotASign(digits);
        assert s[1..] == digits;
      } else {
        assert s[2..] == digits && Signed(s[1..]);
      }
    }
  }

  lemma NotASign(s: string)
    requires s != "" && (IsDecimal(s[0]) || s[0] == '.')
    ensures !Signed(s)
  {
  }

  ghost predicate IsPowerText(power: string) {
    power == "" || exists e, sign, digits :: power == e + sign + digits && IsPower(e, sign, digits)
  }

  lemma PartsOfNumber(s: string)
    returns (sign: string, whole: string, dot: string, fraction: string, power: string)
    requires NumberLike(s)
    ensures s == sign + (whole + dot + fraction) + power
    ensures IsDecimalNumber(sign, whole, dot, fraction) && Exponent(power)
  {
    hide Mantissa, Exponent, IsDecimal;
    var unsigned := Unsigned(s);
    var i :| 0 <= i <= |unsigned| && SplitsNumber(unsigned, i);
    whole, dot, fraction := PartsOfMantissa(unsigned[..i]);
    power := unsigned[i..];
    assert unsigned == (whole + dot + fraction) + power;
    if Signed(s) {
      sign := [s[0]];
      assert s == sign + unsigned && sign + unsigned == sign + (whole + dot + fraction) + power;
    } else {
      sign := "";
      assert sign + (whole + dot + fraction) + power == unsigned;
    }
  }

  lemma NumberOfParts(sign: string, mantissa: string, power: string)
    requires (sign == "" || sign == "+" || sign == "-") && Mantissa(mantissa) && Exponent(power)
    requires mantissa != "" && (IsDecimal(mantissa[0]) || mantissa[0] == '.')
    ensures NumberLike(sign + mantissa + power)
  {
    hide Mantissa, Exponent, IsDecimal;
    var s, unsigned := sign + mantissa + power, mantissa + power;
    NotASign(unsigned);
    if sign == "" {
      assert s == unsigned;
    } else {
      assert s == sign + unsigned && Signed(s) && s[1..] == unsigned;
    }
    var i := |mantissa|;
    assert unsigned[..i] == mantissa && unsigned[i..] == power;
    assert SplitsNumber(Unsigned(s), i);
  }

  /** The texts taken for numbers: a signed decimal number, with a power of ten or without. */
  lemma NumberLikeMeans(s: string)
    ensures NumberLike(s) <==>
      exists sign, whole, dot, fraction, power ::
        && s == sign + (whole + dot + fraction) + power && IsDecimalNumber(sign, whole, dot, fraction)
        && IsPowerText(power)
  {
    hide Mantissa, Exponent, IsPower, IsDecimal, NumberLike;
    if NumberLike(s) {
      var sign, whole, dot, fraction, power := PartsOfNumber(s);
      ExponentMeans(power);
    }
    if sign, whole, dot, fraction, power :|
      && s == sign + (whole + dot + fraction) + power && IsDecimalNumber(sign, whole, dot, fraction)
      && IsPowerText(power)
    {
      assert IsDecimalNumber("", whole, dot, fraction);
      MantissaOfParts(whole, dot, fraction);
      ExponentMeans(power);
      assert (whole + dot + fraction)[0] == if whole != "" then whole[0] else '.';
      NumberOfParts(sign, whole + dot + fraction, power);
    }
  }

  /** `neutralize`: a leading apostrophe on exactly the texts that would run; harmless and stable. */
  function Neutralize(value: Value): (r: Value)
    ensures r.Text? ==> !RunsAsFormula(r.s)
    ensures r != value ==> value.Text? && RunsAsFormula(value.s)
    ensures r != value ==> r.Text? && r.s != "" && r.s[0] == '\'' && r.s[1..] == value.s
    ensures value.Text? && value.s != "" && (value.s[0] == '=' || value.s[0] == '@') ==> r == Text("'" + value.s)
    ensures value.Text? && value.s != "" && (value.s[0] == '+' || value.s[0] == '-') && !NumberLike(value.s) ==>
      r == Text("'" + value.s)
    ensures value.Text? && value.s != "" && (value.s[0] == '+' || value.s[0] == '-') && NumberLike(value.s) ==>
      r == value
    ensures value.Text? && (value.s == "" || value.s[0] !in "=@+-") ==> r == value
    ensures !value.Text? ==> r == value
  {
    if value.Text? && RunsAsFormula(value.s) then Text("'" + value.s) else value
  }

  lemma NeutralizeTwice(value: Value)
    ensures Neutralize(Neutralize(value)) == Neutralize(value)
  {
  }

  // ---- diff ------------------------------------------------------------------------------------------------

  /** The value at a 0-based position, `None` outside the rows. */
  function Get(rows: Rows, r: nat, c: nat): (v: Value)
    ensures r < |rows| && c < |rows[r]| ==> v == rows[r][c]
    ensures r >= |rows| || c >= |rows[r]| ==> v == Nil
  {
    if r < |rows| && c < |rows[r]| then rows[r][c] else Nil
  }

  function Max(a: nat, b: nat): nat {
    if a >= b then a else b
  }

  function Widest(rows: Rows): (n: nat)
    ensures forall r | 0 <= r < |rows| :: |rows[r]| <= n
  {
    if rows == [] then 0 else Max(Widest(rows[..|rows| - 1]), |rows[|rows| - 1]|)
  }

  predicate Changed(rows: Rows, current: Rows, r: nat, c: nat) {
    Differs(Get(rows, r, c), Get(current, r, c))
  }

  predicate Within(r: nat, c: nat, row: nat, column: nat) {
    r < row || (r == row && c < column)
  }

  /** The 0-based position is edited. */
  predicate Edited(edits: Edits, r: nat, c: nat) {
    (r + 1, c + 1) in edits
  }

  /** Every edit has its position's new value, neutralized. */
  ghost predicate NewValues(edits: Edits, rows: Rows) {
    && (forall p | p in edits :: p.0 >= 1 && p.1 >= 1)
    && forall r: nat, c: nat | Edited(edits, r, c) :: edits[(r + 1, c + 1)] == Neutralize(Get(rows, r, c))
  }

  /** The edits found at the positions before (row, column), reading row by row. */
  ghost predicate DiffUpTo(edits: Edits, rows: Rows, current: Rows, row: nat, column: nat, width: nat) {
    && NewValues(edits, rows)
    && forall r: nat, c: nat ::
         Edited(edits, r, c) <==> c < width && Within(r, c, row, column) && Changed(rows, current, r, c)
  }

  /** Exactly the changed positions, anywhere, each with its new value neutralized. */
  ghost predicate IsDiff(edits: Edits, rows: Rows, current: Rows) {
    && NewValues(edits, rows)
    && forall r: nat, c: nat :: Edited(edits, r, c) <==> Changed(rows, current, r, c)
  }

  lemma DiffStep(edits: Edits, rows: Rows, current: Rows, r: nat, c: nat, width: nat)
    requires c < width && DiffUpTo(edits, rows, current, r, c, width)
    ensures DiffUpTo(
      if Changed(rows, current, r, c) then edits[(r + 1, c + 1) := Neutralize(Get(rows, r, c))] else edits,
      rows, current, r, c + 1, width)
  {
    hide Neutralize, Changed, Get;
    if Changed(rows, current, r, c) {
      var after := edits[(r + 1, c + 1) := Neutralize(Get(rows, r, c))];
      assert forall p: nat, q: nat :: Edited(after, p, q) <==> Edited(edits, p, q) || (p == r && q == c);
    }
  }

  lemma DiffIsDone(edits: Edits, rows: Rows, current: Rows, height: nat, width: nat)
    requires height == Max(|rows|, |current|) && width == Max(Widest(rows), Widest(current))
    requires DiffUpTo(edits, rows, current, height, 0, width)
    ensures IsDiff(edits, rows, current)
  {
  }

  /** `_diff`. */
  method Diff(rows: Rows, current: Rows) returns (edits: Edits)
    ensures IsDiff(edits, rows, current)
  {
    hide Neutralize, Get, Differs;
    var height := Max(|rows|, |current|);
    var width := Max(Widest(rows), Widest(current));
    edits := map[];
    for r := 0 to height
      invariant DiffUpTo(edits, rows, current, r, 0, width)
    {
      for c := 0 to width
        invariant DiffUpTo(edits, rows, current, r, c, width)
      {
        var updated := Get(rows, r, c);
        DiffStep(edits, rows, current, r, c, width);
        if Differs(updated, Get(current, r, c)) {
          edits := edits[(r + 1, c + 1) := Neutralize(updated)];
        }
      }
    }
    DiffIsDone(edits, rows, current, height, width);
  }

  ghost predicate HoldsNaN(rows: Rows) {
    exists r: nat, c: nat :: Get(rows, r, c).NotANumber?
  }

  /** Diffing rows against themselves yields no edits, exactly when no cell is NaN. */
  lemma DiffOfSelf(rows: Rows, edits: Edits)
    requires IsDiff(edits, rows, rows)
    ensures edits == map[] <==> !HoldsNaN(rows)
  {
    if HoldsNaN(rows) {
      var r: nat, c: nat :| Get(rows, r, c).NotANumber?;
      assert Edited(edits, r, c);
    }
    if edits.Keys != {} {
      var p :| p in edits;
      var r: nat, c: nat := p.0 - 1, p.1 - 1;
      assert p == (r + 1, c + 1) && Edited(edits, r, c);
      assert Get(rows, r, c).NotANumber?;
    }
    assert edits == map[] <==> edits.Keys == {};
  }
}
