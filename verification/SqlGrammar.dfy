/** The SQL the filter compiler emits: expressions, their token text, and a parser that reads
    flat text back under PostgreSQL's operator precedence (section 4.1.6 of its documentation). */
module SqlGrammar {
  import opened Lib

  datatype Leaf =
    | DocColumn              // doc
    | Quoted(text: string)   // 'text'
    | Param(index: nat)      // $index
    | Truth(b: bool)         // TRUE, FALSE

  datatype Infix =
    | OrOp | AndOp | EqOp | LtOp | LeOp | GtOp
    | ArrowOp       // ->
    | PathOp        // #>
    | PathTextOp    // #>>
    | ContainsOp    // @>
    | HasKeyOp      // ?

  datatype Postfix = IsNull | IsNotNull | AsJsonb | AsNumeric | CollateC

  datatype Token = TLeaf(leaf: Leaf) | TIn(op: Infix) | TPost(post: Postfix) | TNot | TTypeof | LP | RP

  /** Concrete syntax: parentheses are nodes of their own, so printing adds none. */
  datatype Expr =
    | Atom(leaf: Leaf)
    | Paren(e: Expr)
    | Typeof(e: Expr)                     // jsonb_typeof(e)
    | Not(e: Expr)
    | Bin(op: Infix, l: Expr, r: Expr)
    | Post(e: Expr, post: Postfix)

  function Print(e: Expr): (ts: seq<Token>)
    ensures ts != []
  {
    match e
    case Atom(leaf) => [TLeaf(leaf)]
    case Paren(x) => [LP] + Print(x) + [RP]
    case Typeof(x) => [TTypeof, LP] + Print(x) + [RP]
    case Not(x) => [TNot] + Print(x)
    case Bin(op, l, r) => Print(l) + ([TIn(op)] + Print(r))
    case Post(x, post) => Print(x) + [TPost(post)]
  }

  // ---- precedence -------------------------------------------------------------------------------

  const NOT_LEVEL := 3
  const TIGHTEST := 20

  function InfixLevel(op: Infix): (p: nat)
    ensures 1 <= p < TIGHTEST && p != NOT_LEVEL
  {
    match op
    case OrOp => 1
    case AndOp => 2
    case EqOp | LtOp | LeOp | GtOp => 5
    case _ => 7
  }

  /** Comparisons do not chain: `a = b = c` is a syntax error. */
  predicate NonChaining(op: Infix) {
    InfixLevel(op) == 5
  }

  function PostfixLevel(post: Postfix): (p: nat)
    ensures NOT_LEVEL < p < TIGHTEST
  {
    match post
    case IsNull | IsNotNull => 4
    case CollateC => 12
    case AsJsonb | AsNumeric => 14
  }

  /** How tightly the outermost operator binds. */
  function Level(e: Expr): nat {
    match e
    case Not(_) => NOT_LEVEL
    case Bin(op, _, _) => InfixLevel(op)
    case Post(_, post) => PostfixLevel(post)
    case _ => TIGHTEST
  }

  /** No operand binds looser than its operator allows; infix operators group to the left. */
  predicate Grouped(e: Expr) {
    match e
    case Atom(_) => true
    case Paren(x) => Grouped(x)
    case Typeof(x) => Grouped(x)
    case Not(x) => Grouped(x) && Level(x) >= NOT_LEVEL
    case Bin(op, l, r) =>
      && Grouped(l) && Grouped(r) && Level(l) >= InfixLevel(op) && Level(r) > InfixLevel(op)
      && (NonChaining(op) ==> Level(l) > InfixLevel(op))
    case Post(x, post) => Grouped(x) && Level(x) >= PostfixLevel(post)
  }

  // ---- parsing -----------------------------------------------------------------------------------

  type Parsed = Option<(Expr, seq<Token>)>

  /** An expression all of whose top-level operators bind at least as tightly as `min`. */
  function Parse(ts: seq<Token>, min: nat): (r: Parsed)
    ensures r.Some? ==> |r.value.1| < |ts|
    decreases |ts|, 1
  {
    var head := ParsePrefix(ts, min);
    if head.None? then None else Climb(head.value.0, head.value.1, min)
  }

  function ParsePrefix(ts: seq<Token>, min: nat): (r: Parsed)
    ensures r.Some? ==> |r.value.1| < |ts|
    decreases |ts|, 0
  {
    if ts == [] then None
    else match ts[0]
      case TLeaf(leaf) => Some((Atom(leaf), ts[1..]))
      case LP =>
        var inner := Parse(ts[1..], 0);
        if inner.Some? && inner.value.1 != [] && inner.value.1[0] == RP
        then Some((Paren(inner.value.0), inner.value.1[1..])) else None
      case TTypeof =>
        if |ts| < 2 || ts[1] != LP then None else
        var inner := Parse(ts[2..], 0);
        if inner.Some? && inner.value.1 != [] && inner.value.1[0] == RP
        then Some((Typeof(inner.value.0), inner.value.1[1..])) else None
      case TNot =>
        if min > NOT_LEVEL then None else
        var inner := Parse(ts[1..], NOT_LEVEL);
        if inner.Some? then Some((Not(inner.value.0), inner.value.1)) else None
      case _ => None
  }

  /** Extend `left` with the infix and postfix operators that follow it. */
  function Climb(left: Expr, ts: seq<Token>, min: nat): (r: Parsed)
    ensures r.Some? ==> |r.value.1| <= |ts|
    decreases |ts|, 0
  {
    if Stops(ts, min) then Some((left, ts))
    else match ts[0]
      case TIn(op) =>
        if NonChaining(op) && left.Bin? && NonChaining(left.op) then None else
        var right := Parse(ts[1..], InfixLevel(op) + 1);
        if right.None? then None else Climb(Bin(op, left, right.value.0), right.value.1, min)
      case TPost(post) => Climb(Post(left, post), ts[1..], min)
  }

  /** The next token is not an operator binding at least as tightly as `min`. */
  predicate Stops(ts: seq<Token>, min: nat) {
    ts == [] || match ts[0]
      case TIn(op) => InfixLevel(op) < min
      case TPost(post) => PostfixLevel(post) < min
      case _ => true
  }

  function ParseAll(ts: seq<Token>): Option<Expr> {
    var r := Parse(ts, 0);
    if r.Some? && r.value.1 == [] then Some(r.value.0) else None
  }

  // ---- printing then parsing ------------------------------------------------------------------------

  /** What an operator after `e` must stay below so that it is not read as part of `e`. */
  function Absorbs(e: Expr): nat {
    match e
    case Not(_) => NOT_LEVEL
    case Bin(op, _, _) => InfixLevel(op) + 1
    case _ => TIGHTEST
  }

  lemma AbsorbsAtLeastLevel(e: Expr, ts: seq<Token>, min: nat)
    requires min <= Level(e) && Stops(ts, min)
    ensures Stops(ts, Absorbs(e))
  {
  }

  lemma PrintedParen(x: Expr, rest: seq<Token>, min: nat)
    requires Parse(Print(x) + ([RP] + rest), 0) == Climb(x, [RP] + rest, 0)
    ensures Parse(Print(Paren(x)) + rest, min) == Climb(Paren(x), rest, min)
    ensures Parse(Print(Typeof(x)) + rest, min) == Climb(Typeof(x), rest, min)
  {
    hide Print, Climb, ParsePrefix, Parse;
    var inner := [RP] + rest;
    assert inner[1..] == rest && Climb(x, inner, 0) == Some((x, inner)) by {
      ClimbStops(x, inner);
    }
    PrintOfParen(x);
    var ts := Print(Paren(x)) + rest;
    assert ts == [LP] + (Print(x) + inner);
    ParseOfParen(Print(x) + inner, x, inner, min);
    ParseIsClimb(ts, Paren(x), rest, min);
    var us := Print(Typeof(x)) + rest;
    assert us == [TTypeof, LP] + (Print(x) + inner);
    ParseIsClimb(us, Typeof(x), rest, min);
  }

  lemma PrintOfParen(x: Expr)
    ensures Print(Paren(x)) == [LP] + Print(x) + [RP] && Print(Typeof(x)) == [TTypeof, LP] + Print(x) + [RP]
  {
  }

  lemma ClimbStops(x: Expr, ts: seq<Token>)
    requires ts != [] && ts[0] == RP
    ensures Climb(x, ts, 0) == Some((x, ts))
  {
  }

  lemma ParseOfParen(body: seq<Token>, x: Expr, inner: seq<Token>, min: nat)
    requires Parse(body, 0) == Some((x, inner)) && inner != [] && inner[0] == RP
    ensures ParsePrefix([LP] + body, min) == Some((Paren(x), inner[1..]))
    ensures ParsePrefix([TTypeof, LP] + body, min) == Some((Typeof(x), inner[1..]))
  {
  }

  lemma ParseIsClimb(ts: seq<Token>, e: Expr, rest: seq<Token>, min: nat)
    requires ParsePrefix(ts, min) == Some((e, rest))
    ensures Parse(ts, min) == Climb(e, rest, min)
  {
    hide ParsePrefix, Climb;
  }

  lemma PrintedNot(x: Expr, rest: seq<Token>, min: nat)
    requires min <= NOT_LEVEL && Stops(rest, NOT_LEVEL)
    requires Parse(Print(x) + rest, NOT_LEVEL) == Climb(x, rest, NOT_LEVEL)
    ensures Parse(Print(Not(x)) + rest, min) == Climb(Not(x), rest, min)
  {
    var ts := Print(Not(x)) + rest;
    assert ts[0] == TNot && ts[1..] == Print(x) + rest;
    assert ParsePrefix(ts, min) == Some((Not(x), rest));
  }

  lemma PrintedBin(op: Infix, l: Expr, r: Expr, rest: seq<Token>, min: nat)
    requires min <= InfixLevel(op) && Stops(rest, InfixLevel(op) + 1)
    requires NonChaining(op) ==> Level(l) > InfixLevel(op)
    requires Parse(Print(r) + rest, InfixLevel(op) + 1) == Climb(r, rest, InfixLevel(op) + 1)
    ensures Climb(l, [TIn(op)] + (Print(r) + rest), min) == Climb(Bin(op, l, r), rest, min)
  {
  }

  lemma {:induction false} ParsePrinted(e: Expr, rest: seq<Token>, min: nat)
    requires Grouped(e) && min <= Level(e) && Stops(rest, Absorbs(e))
    ensures Parse(Print(e) + rest, min) == Climb(e, rest, min)
    decreases e
  {
    match e
    case Atom(leaf) =>
      assert (Print(e) + rest)[1..] == rest;
    case Paren(x) =>
      ParsePrinted(x, [RP] + rest, 0);
      PrintedParen(x, rest, min);
    case Typeof(x) =>
      ParsePrinted(x, [RP] + rest, 0);
      PrintedParen(x, rest, min);
    case Not(x) =>
      AbsorbsAtLeastLevel(x, rest, NOT_LEVEL);
      ParsePrinted(x, rest, NOT_LEVEL);
      PrintedNot(x, rest, min);
    case Bin(op, l, r) =>
      var tail := [TIn(op)] + (Print(r) + rest);
      assert Print(e) + rest == Print(l) + tail;
      ParsePrinted(l, tail, min);
      AbsorbsAtLeastLevel(r, rest, InfixLevel(op) + 1);
      ParsePrinted(r, rest, InfixLevel(op) + 1);
      PrintedBin(op, l, r, rest, min);
    case Post(x, post) =>
      var tail := [TPost(post)] + rest;
      assert Print(e) + rest == Print(x) + tail && tail[1..] == rest;
      ParsePrinted(x, tail, min);
  }

  /** Text printed from a properly grouped expression reads back as that very expression. */
  lemma ParseInvertsPrint(e: Expr)
    requires Grouped(e)
    ensures ParseAll(Print(e)) == Some(e)
  {
    assert Print(e) + [] == Print(e);
    ParsePrinted(e, [], 0);
  }

  // ---- parsing then printing ------------------------------------------------------------------------

  lemma {:induction false} ParseSound(ts: seq<Token>, min: nat)
    requires Parse(ts, min).Some?
    ensures ts == Print(Parse(ts, min).value.0) + Parse(ts, min).value.1
    decreases |ts|, 1
  {
    hide Print, ParsePrefix, Climb;
    var head := ParsePrefix(ts, min).value;
    ParsePrefixSound(ts, min);
    ClimbSound(head.0, head.1, min);
  }

  lemma {:induction false} ParsePrefixSound(ts: seq<Token>, min: nat)
    requires ParsePrefix(ts, min).Some?
    ensures ts == Print(ParsePrefix(ts, min).value.0) + ParsePrefix(ts, min).value.1
    decreases |ts|, 0
  {
    hide Parse;
    assert ts == [ts[0]] + ts[1..];
    match ts[0]
    case LP =>
      ParseSound(ts[1..], 0);
      PrintOfParen(Parse(ts[1..], 0).value.0);
    case TTypeof =>
      ParseSound(ts[2..], 0);
      PrintOfParen(Parse(ts[2..], 0).value.0);
      assert ts == [TTypeof, LP] + ts[2..];
    case TNot =>
      ParseSound(ts[1..], NOT_LEVEL);
    case _ =>
  }

  lemma {:induction false} ClimbSound(left: Expr, ts: seq<Token>, min: nat)
    requires Climb(left, ts, min).Some?
    ensures Print(left) + ts == Print(Climb(left, ts, min).value.0) + Climb(left, ts, min).value.1
    decreases |ts|, 0
  {
    hide Parse;
    if !Stops(ts, min) {
      assert ts == [ts[0]] + ts[1..];
      match ts[0]
      case TIn(op) =>
        var right := Parse(ts[1..], InfixLevel(op) + 1).value;
        ParseSound(ts[1..], InfixLevel(op) + 1);
        ClimbSound(Bin(op, left, right.0), right.1, min);
        assert Print(left) + ts == Print(Bin(op, left, right.0)) + right.1;
      case TPost(post) =>
        ClimbSound(Post(left, post), ts[1..], min);
        assert Print(left) + ts == Print(Post(left, post)) + ts[1..];
    }
  }

  /** Only an expression's own text parses to it. */
  lemma ParseAllSound(ts: seq<Token>)
    requires ParseAll(ts).Some?
    ensures ts == Print(ParseAll(ts).value)
  {
    hide Print, Parse;
    ParseSound(ts, 0);
    var r := Parse(ts, 0).value;
    assert Print(r.0) + [] == Print(r.0);
  }

  // ---- joining ---------------------------------------------------------------------------------------

  /** `sep.join(texts)`. */
  function JoinText(sep: Infix, texts: seq<seq<Token>>): seq<Token> {
    if texts == [] then []
    else if |texts| == 1 then texts[0]
    else JoinText(sep, texts[..|texts| - 1]) + ([TIn(sep)] + texts[|texts| - 1])
  }

  /** The left-grouped chain `es[0] op es[1] op ...`. */
  function Chain(op: Infix, es: seq<Expr>): Expr
    requires es != []
  {
    if |es| == 1 then es[0] else Bin(op, Chain(op, es[..|es| - 1]), es[|es| - 1])
  }

  function PrintAll(es: seq<Expr>): (r: seq<seq<Token>>)
    ensures |r| == |es| && forall i | 0 <= i < |es| :: r[i] == Print(es[i])
  {
    seq(|es|, i requires 0 <= i < |es| => Print(es[i]))
  }

  lemma {:induction false} JoinTextIsChain(op: Infix, es: seq<Expr>)
    requires es != []
    ensures JoinText(op, PrintAll(es)) == Print(Chain(op, es))
  {
    if |es| > 1 {
      JoinTextIsChain(op, es[..|es| - 1]);
      assert PrintAll(es)[..|es| - 1] == PrintAll(es[..|es| - 1]);
    }
  }

  lemma {:induction false} JoinTextConcat(sep: Infix, xs: seq<seq<Token>>, ys: seq<seq<Token>>)
    requires xs != [] && ys != []
    ensures JoinText(sep, xs + ys) == JoinText(sep, xs) + ([TIn(sep)] + JoinText(sep, ys))
    decreases |ys|
  {
    var whole, front := xs + ys, ys[..|ys| - 1];
    assert whole[..|whole| - 1] == xs + front;
    if |ys| > 1 {
      JoinTextConcat(sep, xs, front);
    } else {
      assert xs + front == xs;
    }
  }

  lemma {:induction false} ChainGrouped(op: Infix, es: seq<Expr>)
    requires es != [] && !NonChaining(op)
    requires forall e | e in es :: Grouped(e) && Level(e) > InfixLevel(op)
    ensures Grouped(Chain(op, es)) && Level(Chain(op, es)) >= InfixLevel(op)
  {
    if |es| > 1 {
      ChainGrouped(op, es[..|es| - 1]);
    }
  }
}
