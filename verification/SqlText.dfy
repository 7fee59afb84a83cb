/** The SQL as characters: how each token is spelled, and how the text is read into tokens again. */
module SqlText {
  import opened Lib
  import opened Datetimes
  import opened SqlLiterals
  import opened SqlGrammar

  // ---- spelling ------------------------------------------------------------------------------------------------

  function Decimal(n: nat): (s: string)
    ensures s != "" && AllDigits(s)
  {
    if n < 10 then [DigitChar(n)] else Decimal(n / 10) + [DigitChar(n % 10)]
  }

  function InfixText(op: Infix): string {
    match op
    case OrOp => " OR "
    case AndOp => " AND "
    case EqOp => " = "
    case LtOp => " < "
    case LeOp => " <= "
    case GtOp => " > "
    case ArrowOp => "->"
    case PathOp => "#>"
    case PathTextOp => " #>> "
    case ContainsOp => " @> "
    case HasKeyOp => " ? "
  }

  function PostfixText(post: Postfix): string {
    match post
    case IsNull => " IS NULL"
    case IsNotNull => " IS NOT NULL"
    case AsJsonb => "::jsonb"
    case AsNumeric => "::numeric"
    case CollateC => " COLLATE \"C\""
  }

  function LeafText(leaf: Leaf): string {
    match leaf
    case DocColumn => "doc"
    case Quoted(s) => "'" + s + "'"
    case Param(n) => "$" + Decimal(n)
    case Truth(b) => if b then "TRUE" else "FALSE"
  }

  function TokenText(t: Token): (s: string)
    ensures s != ""
  {
    match t
    case TLeaf(leaf) => LeafText(leaf)
    case TIn(op) => InfixText(op)
    case TPost(post) => PostfixText(post)
    case TNot => "NOT "
    case TTypeof => "jsonb_typeof"
    case LP => "("
    case RP => ")"
  }

  function Render(ts: seq<Token>): string {
    if ts == [] then "" else TokenText(ts[0]) + Render(ts[1..])
  }

  // ---- reading -------------------------------------------------------------------------------------------------

  function At(s: string, i: nat): char {
    if i < |s| then s[i] else '\0'
  }

  function GuessSpaced(s: string): Token {
    match At(s, 1)
    case 'O' => TIn(OrOp)
    case 'A' => TIn(AndOp)
    case '=' => TIn(EqOp)
    case '<' => if At(s, 2) == '=' then TIn(LeOp) else TIn(LtOp)
    case '>' => TIn(GtOp)
    case '#' => TIn(PathTextOp)
    case '@' => TIn(ContainsOp)
    case '?' => TIn(HasKeyOp)
    case 'I' => if At(s, 5) == 'U' then TPost(IsNull) else TPost(IsNotNull)
    case _ => TPost(CollateC)
  }

  /** The only fixed token that the text can start with. */
  function Guess(s: string): Token {
    match At(s, 0)
    case ' ' => GuessSpaced(s)
    case '(' => LP
    case ')' => RP
    case 'd' => TLeaf(DocColumn)
    case 'j' => TTypeof
    case 'N' => TNot
    case 'T' => TLeaf(Truth(true))
    case 'F' => TLeaf(Truth(false))
    case '-' => TIn(ArrowOp)
    case '#' => TIn(PathOp)
    case _ => if At(s, 2) == 'j' then TPost(AsJsonb) else TPost(AsNumeric)
  }

  function DigitsOf(s: string): (d: string)
    ensures d <= s && AllDigits(d) && (|d| < |s| ==> !IsDigit(s[|d|]))
  {
    if s != "" && IsDigit(s[0]) then [s[0]] + DigitsOf(s[1..]) else ""
  }

  /** The first token of the text, and the text after it. */
  function NextToken(s: string): (r: Option<(Token, string)>)
    ensures r.Some? ==> |r.value.1| < |s|
  {
    if s == "" then None
    else if s[0] == '\'' then
      var constant := ReadQuoted(s[1..]);
      if constant.None? then None else Some((TLeaf(Quoted(constant.value.0)), constant.value.1))
    else if s[0] == '$' then
      var digits := DigitsOf(s[1..]);
      if digits == "" then None else Some((TLeaf(Param(Number(digits))), s[1 + |digits|..]))
    else
      var t := Guess(s);
      if TokenText(t) <= s then Some((t, s[|TokenText(t)|..])) else None
  }

  function Lex(s: string): Option<seq<Token>>
    decreases |s|
  {
    if s == "" then Some([])
    else
      var first := NextToken(s);
      if first.None? then None
      else
        var rest := Lex(first.value.1);
        if rest.None? then None else Some([first.value.0] + rest.value)
  }

  // ---- spelling then reading -------------------------------------------------------------------------------------

  lemma {:induction false} NumberOfDecimal(n: nat)
    ensures Number(Decimal(n)) == n
  {
    if n >= 10 {
      NumberOfDecimal(n / 10);
      var s := Decimal(n);
      assert s[..|s| - 1] == Decimal(n / 10);
    }
  }

  lemma {:induction false} DigitsThen(d: string, rest: string)
    requires AllDigits(d) && (rest == "" || !IsDigit(rest[0]))
    ensures DigitsOf(d + rest) == d
  {
    if d == "" {
      assert d + rest == rest;
    } else {
      assert (d + rest)[1..] == d[1..] + rest;
      DigitsThen(d[1..], rest);
    }
  }

  /** A token with one spelling: neither a constant nor a parameter. */
  predicate IsFixed(t: Token) {
    !(t.TLeaf? && (t.leaf.Quoted? || t.leaf.Param?))
  }

  lemma GuessInfix(op: Infix, rest: string)
    ensures Guess(InfixText(op) + rest) == TIn(op)
  {
    var s := InfixText(op) + rest;
    assert s[0] == InfixText(op)[0] && s[1] == InfixText(op)[1];
    assert op == LtOp || op == LeOp ==> s[2] == InfixText(op)[2];
  }

  lemma GuessPostfix(post: Postfix, rest: string)
    ensures Guess(PostfixText(post) + rest) == TPost(post)
  {
    var s := PostfixText(post) + rest;
    assert s[0] == PostfixText(post)[0] && s[1] == PostfixText(post)[1];
    assert s[2] == PostfixText(post)[2] && s[5] == PostfixText(post)[5];
  }

  lemma GuessFixed(t: Token, rest: string)
    requires IsFixed(t)
    ensures Guess(TokenText(t) + rest) == t
  {
    var s := TokenText(t) + rest;
    assert s[0] == TokenText(t)[0];
    match t
    case TIn(op) => GuessInfix(op, rest);
    case TPost(post) => GuessPostfix(post, rest);
    case _ =>
  }

  lemma FixedStart(t: Token)
    requires IsFixed(t)
    ensures TokenText(t)[0] != '\'' && TokenText(t)[0] != '$'
  {
  }

  lemma FixedReadsBack(t: Token, rest: string)
    requires IsFixed(t)
    ensures NextToken(TokenText(t) + rest) == Some((t, rest))
  {
    hide Guess, ReadQuoted, DigitsOf, TokenText;
    var s := TokenText(t) + rest;
    GuessFixed(t, rest);
    FixedStart(t);
    assert s[0] == TokenText(t)[0] && s[|TokenText(t)|..] == rest;
  }

  /** The text after a constant or a parameter does not go on with one. */
  predicate EndsHere(rest: string) {
    rest == "" || (rest[0] != '\'' && !IsDigit(rest[0]))
  }

  lemma ParamReadsBack(n: nat, rest: string)
    requires EndsHere(rest)
    ensures NextToken(LeafText(Param(n)) + rest) == Some((TLeaf(Param(n)), rest))
  {
    var s := LeafText(Param(n)) + rest;
    assert s[1..] == Decimal(n) + rest;
    DigitsThen(Decimal(n), rest);
    NumberOfDecimal(n);
    assert s[1 + |Decimal(n)|..] == rest;
  }

  predicate ReadsAs(s: string, t: Token) {
    NextToken(s).Some? && NextToken(s).value.0 == t
  }

  /** A constant reads back exactly when its text has neither a quote nor U+0000 in it. */
  lemma ConstantReadsBack(text: string, rest: string)
    requires EndsHere(rest)
    ensures PlainText(text) ==> NextToken(LeafText(Quoted(text)) + rest) == Some((TLeaf(Quoted(text)), rest))
    ensures !PlainText(text) ==> !ReadsAs(LeafText(Quoted(text)) + rest, TLeaf(Quoted(text)))
  {
    hide ReadQuoted, PlainText;
    var s := LeafText(Quoted(text)) + rest;
    assert s[0] == '\'' && s[1..] == text + "'" + rest;
    QuotedReadsBack(text, rest);
  }

  /** No two leaves stand side by side. */
  predicate Spaced(ts: seq<Token>) {
    forall i | 0 <= i < |ts| - 1 :: !(ts[i].TLeaf? && ts[i + 1].TLeaf?)
  }

  predicate PlainToken(t: Token) {
    t.TLeaf? && t.leaf.Quoted? ==> PlainText(t.leaf.text)
  }

  predicate PlainTokens(ts: seq<Token>) {
    forall i | 0 <= i < |ts| :: PlainToken(ts[i])
  }

  lemma TextAfterLeaf(ts: seq<Token>)
    requires Spaced(ts) && ts != [] && ts[0].TLeaf?
    ensures EndsHere(Render(ts[1..]))
  {
    if |ts| > 1 {
      var t := ts[1];
      assert !t.TLeaf? && ts[1..][0] == t;
      assert Render(ts[1..])[0] == TokenText(t)[0];
    }
  }

  lemma FirstReadsBack(t: Token, rest: string)
    requires t.TLeaf? ==> EndsHere(rest)
    ensures PlainToken(t) ==> NextToken(TokenText(t) + rest) == Some((t, rest))
    ensures !PlainToken(t) ==> !ReadsAs(TokenText(t) + rest, t)
  {
    hide NextToken, EndsHere;
    if IsFixed(t) {
      FixedReadsBack(t, rest);
    } else if t.leaf.Param? {
      ParamReadsBack(t.leaf.index, rest);
    } else {
      ConstantReadsBack(t.leaf.text, rest);
    }
  }

  /** Text spelled from tokens is read as those very tokens exactly when no constant in it has a quote or U+0000. */
  lemma {:induction false} LexInvertsRender(ts: seq<Token>)
    requires Spaced(ts)
    ensures Lex(Render(ts)) == Some(ts) <==> PlainTokens(ts)
  {
    hide NextToken, TokenText, EndsHere, PlainToken;
    if ts != [] {
      var rest := Render(ts[1..]);
      if ts[0].TLeaf? {
        TextAfterLeaf(ts);
      }
      assert Spaced(ts[1..]) by {
        assert forall i | 0 <= i < |ts[1..]| :: ts[1..][i] == ts[i + 1];
      }
      FirstReadsBack(ts[0], rest);
      LexInvertsRender(ts[1..]);
      assert ts == [ts[0]] + ts[1..];
      assert PlainTokens(ts) <==> PlainToken(ts[0]) && PlainTokens(ts[1..]) by {
        assert forall i | 0 <= i < |ts| - 1 :: ts[1..][i] == ts[i + 1];
      }
    }
  }

  /** The text read as an expression, under SQL precedence. */
  function ReadSql(s: string): Option<Expr> {
    var ts := Lex(s);
    if ts.None? then None else ParseAll(ts.value)
  }
}
