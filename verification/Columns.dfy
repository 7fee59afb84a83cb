/** Spreadsheet column names: bijective base 26, written with the letters A to Z
    (section 18.18.7 of ECMA-376 part 1). */
module Columns {
  import opened Lib

  predicate IsLetters(s: string) {
    forall i | 0 <= i < |s| :: 'A' <= s[i] <= 'Z'
  }

  /** Digits 1 to 26, least significant last. */
  function Index(letters: string): (n: int)
    ensures IsLetters(letters) ==> n >= 0
    ensures IsLetters(letters) && letters != [] ==> n >= 1
  {
    if letters == [] then 0
    else Index(letters[..|letters| - 1]) * 26 + letters[|letters| - 1] as int - 64
  }

  function Letters(n: nat): (s: string)
    ensures IsLetters(s)
    ensures s == [] <==> n == 0
  {
    if n == 0 then [] else Letters((n - 1) / 26) + [Digit((n - 1) % 26)]
  }

  function Digit(remainder: nat): (c: char)
    requires remainder < 26
    ensures 'A' <= c <= 'Z' && c as int == 65 + remainder
  {
    (65 + remainder) as char
  }

  lemma {:induction false} IndexOfLetters(n: nat)
    ensures Index(Letters(n)) == n
  {
    if n > 0 {
      IndexOfLetters((n - 1) / 26);
      assert Letters(n)[..|Letters(n)| - 1] == Letters((n - 1) / 26);
    }
  }

  lemma {:induction false} LettersOfIndex(s: string)
    requires IsLetters(s)
    ensures Letters(Index(s)) == s
  {
    hide Letters, Digit;
    if s != [] {
      var front, last := s[..|s| - 1], s[|s| - 1] as int - 65;
      LettersOfIndex(front);
      LastDigit(Index(front), last);
      assert s == front + [s[|s| - 1]];
    }
  }

  /** Later columns have longer names, or names of the same length that come later in the alphabet. */
  lemma {:induction false} LettersAreOrdered(m: nat, n: nat)
    requires m < n
    ensures |Letters(m)| < |Letters(n)| || (|Letters(m)| == |Letters(n)| && TextLess(Letters(m), Letters(n)))
    decreases n
  {
    if m > 0 {
      var x, y := (m - 1) / 26, (n - 1) / 26;
      var c, d := [Digit((m - 1) % 26)], [Digit((n - 1) % 26)];
      if x < y {
        LettersAreOrdered(x, y);
      }
      if |Letters(x)| == |Letters(y)| {
        TextLessIrreflexive(Letters(x));
        TextLessBlocks(Letters(x), Letters(y), c, d);
      }
    }
  }

  lemma LastDigit(front: nat, last: nat)
    requires last < 26
    ensures Letters(front * 26 + last + 1) == Letters(front) + [Digit(last)]
  {
    assert (front * 26 + last) / 26 == front && (front * 26 + last) % 26 == last;
  }

  /** `column_letters`: divide until nothing is left, prepending a letter each time. */
  method ColumnLetters(column: nat) returns (letters: string)
    ensures letters == Letters(column)
  {
    letters := "";
    var index := column;
    while index > 0
      invariant Letters(column) == Letters(index) + letters
    {
      var remainder := (index - 1) % 26;
      index := (index - 1) / 26;
      letters := [Digit(remainder)] + letters;
    }
  }

  /** `column_index`: Horner's rule over the letters. */
  method ColumnIndex(letters: string) returns (result: int)
    ensures result == Index(letters)
  {
    result := 0;
    for i := 0 to |letters|
      invariant result == Index(letters[..i])
    {
      assert letters[..i + 1][..i] == letters[..i];
      result := result * 26 + letters[i] as int - 64;
    }
    assert letters[..|letters|] == letters;
  }
}
