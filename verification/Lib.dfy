/** Small shared vocabulary: optional values, results that may fail, and text in byte order. */
module Lib {

  datatype Option<+T> = None | Some(value: T)

  /** A computation that either yields a value or raises `ValueError`. */
  datatype Result<+T> = Ok(value: T) | Err {
    predicate IsFailure() {
      Err?
    }

    function PropagateFailure<U>(): Result<U>
      requires Err?
    {
      Err
    }

    function Extract(): T
      requires Ok?
    {
      value
    }
  }

  /** `a` sorts strictly before `b` in code point order, which is also UTF-8 byte order. */
  predicate TextLess(a: string, b: string) {
    b != [] && (a == [] || a[0] < b[0] || (a[0] == b[0] && TextLess(a[1..], b[1..])))
  }

  lemma {:induction false} TextLessIrreflexive(a: string)
    ensures !TextLess(a, a)
  {
    if a != [] {
      TextLessIrreflexive(a[1..]);
    }
  }

  lemma {:induction false} TextLessTrichotomy(a: string, b: string)
    ensures TextLess(a, b) || a == b || TextLess(b, a)
    ensures !(TextLess(a, b) && TextLess(b, a))
  {
    if a != [] && b != [] && a[0] == b[0] {
      TextLessTrichotomy(a[1..], b[1..]);
      assert a == [a[0]] + a[1..] && b == [b[0]] + b[1..];
    }
  }

  lemma {:induction false} TextLessTransitive(a: string, b: string, c: string)
    requires TextLess(a, b) && TextLess(b, c)
    ensures TextLess(a, c)
  {
    if a != [] && a[0] == b[0] == c[0] {
      TextLessTransitive(a[1..], b[1..], c[1..]);
    }
  }

  /** Comparing two texts that start with blocks of equal length compares the blocks first. */
  lemma {:induction false} TextLessBlocks(a: string, b: string, x: string, y: string)
    requires |a| == |b|
    ensures TextLess(a + x, b + y) <==> TextLess(a, b) || (a == b && TextLess(x, y))
  {
    if a == [] {
      assert a + x == x && b + y == y;
    } else {
      assert (a + x)[1..] == a[1..] + x && (b + y)[1..] == b[1..] + y;
      TextLessBlocks(a[1..], b[1..], x, y);
      assert a == [a[0]] + a[1..] && b == [b[0]] + b[1..];
    }
  }

  // ---- text in parts --------------------------------------------------------------------------------------

  /** `s.split(sep)`. */
  function SplitOn(s: string, sep: char): (parts: seq<string>)
    ensures parts != []
  {
    if s == "" then [""]
    else
      var rest := SplitOn(s[1..], sep);
      if s[0] == sep then [""] + rest else [[s[0]] + rest[0]] + rest[1..]
  }

  /** `sep.join(parts)`. */
  function JoinWith(parts: seq<string>, sep: char): string {
    if parts == [] then "" else if |parts| == 1 then parts[0] else parts[0] + [sep] + JoinWith(parts[1..], sep)
  }

  lemma {:induction false} SplitOfPart(part: string, rest: string, sep: char)
    requires sep !in part
    ensures SplitOn(part + [sep] + rest, sep) == [part] + SplitOn(rest, sep)
    ensures SplitOn(part, sep) == [part]
  {
    if part == "" {
      assert ([] + [sep] + rest)[1..] == rest;
    } else {
      assert (part + [sep] + rest)[1..] == part[1..] + [sep] + rest;
      SplitOfPart(part[1..], rest, sep);
      assert part == [part[0]] + part[1..];
    }
  }

  lemma {:induction false} SplitOfJoin(parts: seq<string>, sep: char)
    requires parts != [] && forall p | p in parts :: sep !in p
    ensures SplitOn(JoinWith(parts, sep), sep) == parts
  {
    assert parts[0] in parts;
    if |parts| == 1 {
      SplitOfPart(parts[0], "", sep);
    } else {
      SplitOfJoin(parts[1..], sep);
      SplitOfPart(parts[0], JoinWith(parts[1..], sep), sep);
      assert parts == [parts[0]] + parts[1..];
    }
  }

  lemma {:induction false} JoinOfSplit(s: string, sep: char)
    ensures JoinWith(SplitOn(s, sep), sep) == s
    ensures forall p | p in SplitOn(s, sep) :: sep !in p
  {
    if s != "" {
      JoinOfSplit(s[1..], sep);
      var rest, parts := SplitOn(s[1..], sep), SplitOn(s, sep);
      assert s == [s[0]] + s[1..] && rest == [rest[0]] + rest[1..] && rest[0] in rest;
      if s[0] == sep {
        assert parts[1..] == rest;
      } else {
        assert parts[1..] == rest[1..] && parts[0] == [s[0]] + rest[0];
      }
    }
  }

  function LowerChar(c: char): char {
    if 'A' <= c <= 'Z' then (c as int + 32) as char else c
  }

  function Lower(s: string): string {
    seq(|s|, i requires 0 <= i < |s| => LowerChar(s[i]))
  }

  /** The same texts but for the case of letters from A to Z. */
  predicate SameLetters(a: string, b: string) {
    |a| == |b| && forall i | 0 <= i < |a| ::
      || a[i] == b[i]
      || ('A' <= a[i] <= 'Z' && b[i] as int == a[i] as int + 32)
      || ('A' <= b[i] <= 'Z' && a[i] as int == b[i] as int + 32)
  }

  lemma LowerEqual(a: string, b: string)
    ensures Lower(a) == Lower(b) <==> SameLetters(a, b)
  {
    assert |a| == |b| && SameLetters(a, b) ==> Lower(a) == Lower(b);
    if Lower(a) == Lower(b) {
      assert |Lower(a)| == |a| && |Lower(b)| == |b|;
      forall i | 0 <= i < |a|
        ensures LowerChar(a[i]) == LowerChar(b[i])
      {
        assert Lower(a)[i] == LowerChar(a[i]) && Lower(b)[i] == LowerChar(b[i]);
      }
    }
  }

  lemma LowerKeeps(s: string)
    requires forall i | 0 <= i < |s| :: !('A' <= s[i] <= 'Z')
    ensures Lower(s) == s
  {
  }

  // ---- digits ------------------------------------------------------------------------------------------------

  predicate IsDigit(c: char) {
    '0' <= c <= '9'
  }

  predicate Ten(c: char, zero: int) {
    zero <= c as int < zero + 10
  }

  /** What `\d` matches in text: a decimal digit of any script, that is, of general category Nd (Unicode 14). */
  predicate IsDecimal(c: char) {
    || IsDigit(c)
    || Ten(c, 0x0660) || Ten(c, 0x06f0) || Ten(c, 0x07c0) || Ten(c, 0x0966) || Ten(c, 0x09e6) || Ten(c, 0x0a66)
    || Ten(c, 0x0ae6) || Ten(c, 0x0b66) || Ten(c, 0x0be6) || Ten(c, 0x0c66) || Ten(c, 0x0ce6) || Ten(c, 0x0d66)
    || Ten(c, 0x0de6) || Ten(c, 0x0e50) || Ten(c, 0x0ed0) || Ten(c, 0x0f20) || Ten(c, 0x1040) || Ten(c, 0x1090)
    || Ten(c, 0x17e0) || Ten(c, 0x1810) || Ten(c, 0x1946) || Ten(c, 0x19d0) || Ten(c, 0x1a80) || Ten(c, 0x1a90)
    || Ten(c, 0x1b50) || Ten(c, 0x1bb0) || Ten(c, 0x1c40) || Ten(c, 0x1c50) || Ten(c, 0xa620) || Ten(c, 0xa8d0)
    || Ten(c, 0xa900) || Ten(c, 0xa9d0) || Ten(c, 0xa9f0) || Ten(c, 0xaa50) || Ten(c, 0xabf0) || Ten(c, 0xff10)
    || Ten(c, 0x104a0) || Ten(c, 0x10d30) || Ten(c, 0x11066) || Ten(c, 0x110f0) || Ten(c, 0x11136) || Ten(c, 0x111d0)
    || Ten(c, 0x112f0) || Ten(c, 0x11450) || Ten(c, 0x114d0) || Ten(c, 0x11650) || Ten(c, 0x116c0) || Ten(c, 0x11730)
    || Ten(c, 0x118e0) || Ten(c, 0x11950) || Ten(c, 0x11c50) || Ten(c, 0x11d50) || Ten(c, 0x11da0) || Ten(c, 0x16a60)
    || Ten(c, 0x16ac0) || Ten(c, 0x16b50) || Ten(c, 0x1e140) || Ten(c, 0x1e2f0) || Ten(c, 0x1e950) || Ten(c, 0x1fbf0)
    || 0x1d7ce <= c as int < 0x1d800
  }

  predicate AllDecimal(s: string) {
    forall i | 0 <= i < |s| :: IsDecimal(s[i])
  }

  /** The other scripts' digits lie above ASCII, and none is a noncharacter. */
  lemma DecimalsAreCharacters(c: char)
    requires IsDecimal(c)
    ensures IsDigit(c) || 0x660 <= c as int
    ensures c as int != 0xfffe && c as int != 0xffff
  {
  }

  /** The character U+0000, which no PostgreSQL text can hold. */
  const NUL: char := '\0'

  predicate NulFreeText(s: string) {
    NUL !in s
  }

  // ---- sorted numbers -------------------------------------------------------------------------------------

  predicate Ascending(numbers: seq<nat>) {
    forall i, j | 0 <= i < j < |numbers| :: numbers[i] < numbers[j]
  }

  lemma {:induction false} LeastExists(s: set<nat>)
    requires s != {}
    ensures exists m :: IsLeast(m, s)
  {
    var x :| x in s;
    if s == {x} {
      assert IsLeast(x, s);
    } else {
      var rest := s - {x};
      assert s == rest + {x};
      LeastExists(rest);
      var m :| IsLeast(m, rest);
      assert IsLeast(if x < m then x else m, s);
    }
  }

  predicate IsLeast(m: nat, s: set<nat>) {
    m in s && forall x | x in s :: m <= x
  }

  function Least(s: set<nat>): (m: nat)
    requires s != {}
    ensures IsLeast(m, s)
  {
    LeastExists(s);
    var m :| IsLeast(m, s);
    m
  }

  /** Python's `sorted` on distinct numbers. */
  function Sorted(s: set<nat>): (q: seq<nat>)
    ensures Ascending(q)
    ensures forall i | 0 <= i < |q| :: q[i] in s
    ensures forall n | n in s :: n in q
  {
    if s == {} then []
    else
      var m := Least(s);
      var rest := Sorted(s - {m});
      assert forall i | 0 <= i < |rest| :: m < rest[i];
      [m] + rest
  }
}
