/** Sorting text under a database's collation, and when that is code point order. */
module Collation {
  import opened Lib
  import opened Datetimes

  /** A collation that gives each character a primary weight, or ignores it at first. Texts whose weights are the
      same are told apart by their bytes. */
  datatype Collation = Collation(weight: char -> Option<nat>)

  predicate IsHex(c: char) {
    IsDigit(c) || 'a' <= c <= 'f'
  }

  /** Digits come before letters, and both are in their usual order. */
  ghost predicate OrdersHex(c: Collation) {
    && (forall x | IsHex(x) :: c.weight(x).Some?)
    && (forall x, y | IsHex(x) && IsHex(y) && x < y :: c.weight(x).value < c.weight(y).value)
  }

  function SortKey(c: Collation, s: string): seq<nat> {
    if s == "" then []
    else if c.weight(s[0]).Some? then [c.weight(s[0]).value] + SortKey(c, s[1..])
    else SortKey(c, s[1..])
  }

  predicate KeyLess(a: seq<nat>, b: seq<nat>) {
    b != [] && (a == [] || a[0] < b[0] || (a[0] == b[0] && KeyLess(a[1..], b[1..])))
  }

  /** `a` sorts strictly before `b`. */
  predicate Collates(c: Collation, a: string, b: string) {
    KeyLess(SortKey(c, a), SortKey(c, b)) || (SortKey(c, a) == SortKey(c, b) && TextLess(a, b))
  }

  /** The texts differ in nothing but hexadecimal digits. */
  predicate SameShape(a: string, b: string) {
    |a| == |b| && forall i | 0 <= i < |a| :: a[i] == b[i] || (IsHex(a[i]) && IsHex(b[i]))
  }

  lemma {:induction false} KeysOfOneShape(c: Collation, a: string, b: string)
    requires OrdersHex(c) && SameShape(a, b)
    ensures KeyLess(SortKey(c, a), SortKey(c, b)) <==> TextLess(a, b)
    ensures SortKey(c, a) == SortKey(c, b) <==> a == b
  {
    if a != "" {
      KeysOfOneShape(c, a[1..], b[1..]);
      assert a == [a[0]] + a[1..] && b == [b[0]] + b[1..];
      var x, y := SortKey(c, a), SortKey(c, b);
      if c.weight(a[0]).Some? && c.weight(b[0]).Some? {
        assert x[1..] == SortKey(c, a[1..]) && y[1..] == SortKey(c, b[1..]);
      }
    }
  }

  /** Texts of one shape sort as their code points do, whatever the collation makes of the other characters. */
  lemma OneShapeCollates(c: Collation, a: string, b: string)
    requires OrdersHex(c) && SameShape(a, b)
    ensures Collates(c, a, b) <==> TextLess(a, b)
  {
    KeysOfOneShape(c, a, b);
    TextLessIrreflexive(a);
  }

  /** A collation that ignores all but hexadecimal digits at first. */
  function Ignoring(): Collation {
    Collation((c: char) => if IsHex(c) then Some(c as int) else None)
  }

  /** Other texts may not: under that collation the hyphen does not put one text before the other. */
  lemma OtherShapesMayNot()
    ensures OrdersHex(Ignoring()) && Collates(Ignoring(), "a", "-b") && TextLess("-b", "a")
  {
    var a, b := "a", "-b";
    assert b[1..] == "b" && a[1..] == "" && "b"[1..] == "";
    assert SortKey(Ignoring(), "b") == ['b' as int] + SortKey(Ignoring(), "b"[1..]);
    assert SortKey(Ignoring(), a) == ['a' as int] + SortKey(Ignoring(), a[1..]);
    assert SortKey(Ignoring(), b) == SortKey(Ignoring(), "b");
  }

  lemma ShapesConcat(a: string, b: string, x: string, y: string)
    requires SameShape(a, b) && SameShape(x, y)
    ensures SameShape(a + x, b + y)
  {
  }

  lemma {:induction false} DigitsShape(m: nat, n: nat, width: nat)
    ensures SameShape(Digits(m, width), Digits(n, width))
  {
    if width > 0 {
      DigitsShape(m / 10, n / 10, width - 1);
    }
  }

  /** A number of that width, a separator, and more. */
  lemma FieldShape(m: nat, n: nat, width: nat, sep: string, x: string, y: string)
    requires SameShape(x, y)
    ensures SameShape(Digits(m, width) + (sep + x), Digits(n, width) + (sep + y))
  {
    hide Digits;
    DigitsShape(m, n, width);
    ShapesConcat(sep, sep, x, y);
    ShapesConcat(Digits(m, width), Digits(n, width), sep + x, sep + y);
  }

  lemma TimesHaveOneShape(a: Civil, b: Civil)
    ensures SameShape(EncodeTime(a), EncodeTime(b))
  {
    hide Digits, SameShape;
    assert SameShape("+00:00", "+00:00") by { SameShapeItself("+00:00"); }
    DigitsShape(a.micro, b.micro, 6);
    ShapesConcat(Digits(a.micro, 6), Digits(b.micro, 6), "+00:00", "+00:00");
    var ma, mb := Digits(a.micro, 6) + "+00:00", Digits(b.micro, 6) + "+00:00";
    FieldShape(a.second, b.second, 2, ".", ma, mb);
    var sa, sb := Digits(a.second, 2) + ("." + ma), Digits(b.second, 2) + ("." + mb);
    FieldShape(a.minute, b.minute, 2, ":", sa, sb);
    FieldShape(a.hour, b.hour, 2, ":", Digits(a.minute, 2) + (":" + sa), Digits(b.minute, 2) + (":" + sb));
  }

  lemma SameShapeItself(s: string)
    ensures SameShape(s, s)
  {
  }

  lemma EncodingsHaveOneShape(a: Civil, b: Civil)
    ensures SameShape(Encode(a), Encode(b))
  {
    hide Digits, SameShape, EncodeTime;
    TimesHaveOneShape(a, b);
    var ta, tb := EncodeTime(a), EncodeTime(b);
    FieldShape(a.day, b.day, 2, "T", ta, tb);
    var da, db := Digits(a.day, 2) + ("T" + ta), Digits(b.day, 2) + ("T" + tb);
    FieldShape(a.month, b.month, 2, "-", da, db);
    FieldShape(a.year, b.year, 4, "-", Digits(a.month, 2) + ("-" + da), Digits(b.month, 2) + ("-" + db));
  }

  /** Stored timestamps sort as the instants they denote, in any such collation. */
  lemma EncodingsCollate(c: Collation, a: Stamp, b: Stamp)
    requires OrdersHex(c)
    ensures Collates(c, Encode(a), Encode(b)) <==> Instant(a) < Instant(b)
  {
    hide Encode, Instant;
    EncodingsHaveOneShape(a, b);
    OneShapeCollates(c, Encode(a), Encode(b));
    TextOrderIsInstantOrder(a, b);
  }
}
