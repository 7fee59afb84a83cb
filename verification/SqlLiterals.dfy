/** How PostgreSQL reads the two kinds of text the filter compiler writes between quotes: string constants
    (section 4.1.2.1 of its documentation) and array literals (section 8.15.6). */
module SqlLiterals {
  import opened Lib

  // ---- string constants -----------------------------------------------------------------------------------

  /** The value of a constant and the text after it, given what follows its opening quote; a doubled quote
      stands for one, and no statement can hold U+0000. */
  function ReadQuoted(s: string): (r: Option<(string, string)>)
    ensures r.Some? ==> |r.value.1| < |s|
    ensures r.Some? ==> NulFreeText(r.value.0)
  {
    if s == "" || s[0] == NUL then None
    else if s[0] != '\'' then
      var rest := ReadQuoted(s[1..]);
      if rest.None? then None else Some(([s[0]] + rest.value.0, rest.value.1))
    else if |s| > 1 && s[1] == '\'' then
      var rest := ReadQuoted(s[2..]);
      if rest.None? then None else Some((['\''] + rest.value.0, rest.value.1))
    else Some(("", s[1..]))
  }

  predicate StartsWithQuote(s: string) {
    s != "" && s[0] == '\''
  }

  /** How many quotes a text starts with. */
  function LeadingQuotes(s: string): (n: nat)
    ensures n <= |s|
  {
    if StartsWithQuote(s) then 1 + LeadingQuotes(s[1..]) else 0
  }

  /** Quotes are read in pairs. */
  lemma {:induction false} PairsOfQuotes(s: string)
    requires ReadQuoted(s).Some?
    ensures LeadingQuotes(ReadQuoted(s).value.0) == LeadingQuotes(s) / 2
  {
    if StartsWithQuote(s) && |s| > 1 && s[1] == '\'' {
      PairsOfQuotes(s[2..]);
      assert s[1..][1..] == s[2..];
      var rest := ReadQuoted(s[2..]).value.0;
      assert (['\''] + rest)[1..] == rest;
    } else if StartsWithQuote(s) {
      assert LeadingQuotes(s[1..]) == 0;
    }
  }

  lemma {:induction false} LeadingQuotesOf(text: string, after: string)
    requires !StartsWithQuote(after)
    ensures LeadingQuotes(text + "'" + after) == LeadingQuotes(text) + if LeadingQuotes(text) == |text| then 1 else 0
  {
    if StartsWithQuote(text) {
      assert (text + "'" + after)[1..] == text[1..] + "'" + after;
      LeadingQuotesOf(text[1..], after);
    } else if text == "" {
      assert (text + "'" + after)[1..] == after;
    }
  }

  /** Text that can be written between quotes as it is. */
  predicate PlainText(s: string) {
    '\'' !in s && NulFreeText(s)
  }

  /** Text written between quotes as it is reads back exactly when neither a quote nor U+0000 is in it. */
  lemma {:induction false} QuotedReadsBack(text: string, after: string)
    requires !StartsWithQuote(after)
    ensures PlainText(text) ==> ReadQuoted(text + "'" + after) == Some((text, after))
    ensures !PlainText(text) ==> ReadQuoted(text + "'" + after).None? || ReadQuoted(text + "'" + after).value.0 != text
  {
    var s := text + "'" + after;
    if text == "" {
      assert s[1..] == after;
    } else if StartsWithQuote(text) {
      LeadingQuotesOf(text, after);
      if ReadQuoted(s).Some? {
        PairsOfQuotes(s);
        if |text| == 1 {
          OneQuoteIsPaired(text, after);
        }
      }
    } else {
      assert s[1..] == text[1..] + "'" + after && text == [text[0]] + text[1..];
      QuotedReadsBack(text[1..], after);
    }
  }

  lemma OneQuoteIsPaired(text: string, after: string)
    requires !StartsWithQuote(after) && StartsWithQuote(text) && ReadQuoted(text + "'" + after).Some?
    requires |text| == 1
    ensures ReadQuoted(text + "'" + after).value.0 != text
  {
    var s := text + "'" + after;
    assert s[2..] == after && text == "'";
    assert ReadQuoted(after).Some? && (ReadQuoted(after).value.0 == "" ==> StartsWithQuote(after));
  }

  // ---- array literals -----------------------------------------------------------------------------------------

  /** The white space an array literal ignores around its elements. */
  predicate IsSpace(c: char) {
    c == ' ' || 9 <= c as int <= 13
  }

  function TrimLeft(s: string): (t: string)
    ensures |t| <= |s| && t == s[|s| - |t|..] && (t != "" ==> !IsSpace(t[0]))
  {
    if s != "" && IsSpace(s[0]) then TrimLeft(s[1..]) else s
  }

  function Trim(s: string): (t: string)
    ensures |t| <= |s|
    decreases |s|
  {
    var left := TrimLeft(s);
    if left != "" && IsSpace(left[|left| - 1]) then Trim(left[..|left| - 1]) else left
  }

  /** What an array literal of text denotes, as far as paths are concerned. */
  datatype PathRead = Malformed | HasNull | Path(parts: seq<string>)

  predicate IsSpecial(c: char) {
    c == '"' || c == '\\' || c == '{' || c == '}'
  }

  /** An element is quoted, or a character in it has a meaning of its own, or it is empty. */
  predicate IsOdd(element: string) {
    Trim(element) == "" || exists c | c in element :: IsSpecial(c)
  }

  /** The bare word NULL, in any case, stands for a null element. */
  predicate IsNullWord(element: string) {
    Lower(Trim(element)) == "null"
  }

  function ReadPath(s: string): PathRead {
    if |s| < 2 || s[0] != '{' || s[|s| - 1] != '}' then Malformed
    else if s == "{}" then Path([])
    else
      var elements := SplitOn(s[1..|s| - 1], ',');
      if exists e | e in elements :: IsOdd(e) then Malformed
      else if exists e | e in elements :: IsNullWord(e) then HasNull
      else Path(TrimAll(elements))
  }

  function TrimAll(elements: seq<string>): (r: seq<string>)
    ensures |r| == |elements| && forall i | 0 <= i < |r| :: r[i] == Trim(elements[i])
  {
    seq(|elements|, i requires 0 <= i < |elements| => Trim(elements[i]))
  }

  /** `"{" + ",".join(parts) + "}"` */
  function PathLiteral(parts: seq<string>): string {
    "{" + JoinWith(parts, ',') + "}"
  }

  lemma NothingIsOdd()
    ensures SplitOn("", ',') == [""] && IsOdd("")
  {
  }

  /** A literal of parts that need no quoting reads as those parts, trimmed. */
  lemma ReadPathLiteral(parts: seq<string>)
    requires parts != [] && forall p | p in parts :: ',' !in p && !IsOdd(p)
    ensures ReadPath(PathLiteral(parts))
         == if exists p | p in parts :: IsNullWord(p) then HasNull else Path(TrimAll(parts))
  {
    hide IsOdd, IsNullWord, TrimAll, SplitOn, JoinWith;
    var inner := JoinWith(parts, ',');
    var s := PathLiteral(parts);
    SplitOfJoin(parts, ',');
    assert s[1..|s| - 1] == inner && s[0] == '{' && s[|s| - 1] == '}';
    assert parts[0] in parts;
    if inner == "" {
      NothingIsOdd();
    }
  }
}
