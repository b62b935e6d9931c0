/** The recursive-descent filter parser, its grammar, and the proof that it accepts exactly that grammar. */
module FilterParser {
  import opened Prelude
  import opened FilterAst
  import Numerals

  datatype ParseError =
    | EmptyFilter
    | UnterminatedString
    | UnexpectedCharacter(c: char)
    | UnexpectedToken(pos: nat)
    | UnexpectedEnd
    | MissingRParen
    | ExpectedField(found: Token)
    | ExpectedOperatorAtEnd
    | ExpectedOperator(found: Token)
    | ExpectedNeedleAtEnd
    | ExpectedNeedle(found: Token)
    | ExpectedValueAtEnd
    | ExpectedValue(found: Token)

  datatype Parsed = Parsed(expr: Expr, next: nat)

  type Outcome = Result<Parsed, ParseError>

  /** Number of characters before the last `/`, if there is one (`rsplit_once`). */
  function LastSlash(s: string): (r: Option<nat>)
    ensures r.Some? ==> r.value < |s| && s[r.value] == '/' && '/' !in s[r.value + 1..]
    ensures r.None? ==> '/' !in s
  {
    if s == [] then None
    else if s[|s| - 1] == '/' then Some(|s| - 1)
    else LastSlash(s[..|s| - 1])
  }

  function ParseValue(os: Platform, s: string): (v: Value) {
    match LastSlash(s)
    case None => Str(s)
    case Some(k) =>
      match (Numerals.ParseUnsigned(s[k + 1..], 10, 255), os.parseIp(s[..k]))
      case (Some(len), Some(addr)) => if len <= addr.Width() then Cidr(addr, len) else Str(s)
      case _ => Str(s)
  }

  /** The lookahead of `parse_primary`: the token at `i` is an operator or `contains`. */
  predicate OperatorAt(ts: seq<Token>, i: nat) {
    i < |ts| && (ts[i].TokOp? || ts[i].TokContains?)
  }

  /** A parser of a whole phrase consumes at least one token and never runs past the end. */
  predicate Advances(r: Outcome, ts: seq<Token>, i: nat) {
    r.Ok? ==> i < r.value.next <= |ts|
  }

  // ----- What each level of the parser computes from token `i` on -----

  function ParseOr(os: Platform, ts: seq<Token>, i: nat): (r: Outcome)
    requires i <= |ts|
    ensures Advances(r, ts, i)
    decreases |ts| - i, 4
  {
    match ParseAnd(os, ts, i)
    case Err(e) => Err(e)
    case Ok(p) => OrTail(os, ts, p.next, p.expr)
  }

  function OrTail(os: Platform, ts: seq<Token>, i: nat, left: Expr): (r: Outcome)
    requires i <= |ts|
    ensures r.Ok? ==> i <= r.value.next <= |ts|
    decreases |ts| - i, 0
  {
    if i < |ts| && ts[i].TokOr? then
      match ParseAnd(os, ts, i + 1)
      case Err(e) => Err(e)
      case Ok(p) => OrTail(os, ts, p.next, Or(left, p.expr))
    else Ok(Parsed(left, i))
  }

  function ParseAnd(os: Platform, ts: seq<Token>, i: nat): (r: Outcome)
    requires i <= |ts|
    ensures Advances(r, ts, i)
    decreases |ts| - i, 3
  {
    match ParseNot(os, ts, i)
    case Err(e) => Err(e)
    case Ok(p) => AndTail(os, ts, p.next, p.expr)
  }

  function AndTail(os: Platform, ts: seq<Token>, i: nat, left: Expr): (r: Outcome)
    requires i <= |ts|
    ensures r.Ok? ==> i <= r.value.next <= |ts|
    decreases |ts| - i, 0
  {
    if i < |ts| && ts[i].TokAnd? then
      match ParseNot(os, ts, i + 1)
      case Err(e) => Err(e)
      case Ok(p) => AndTail(os, ts, p.next, And(left, p.expr))
    else Ok(Parsed(left, i))
  }

  function ParseNot(os: Platform, ts: seq<Token>, i: nat): (r: Outcome)
    requires i <= |ts|
    ensures Advances(r, ts, i)
    decreases |ts| - i, 2
  {
    if i < |ts| && ts[i].TokNot? then
      match ParseNot(os, ts, i + 1)
      case Err(e) => Err(e)
      case Ok(p) => Ok(Parsed(Not(p.expr), p.next))
    else ParsePrimary(os, ts, i)
  }

  function ParsePrimary(os: Platform, ts: seq<Token>, i: nat): (r: Outcome)
    requires i <= |ts|
    ensures Advances(r, ts, i)
    decreases |ts| - i, 1
  {
    if i == |ts| then Err(UnexpectedEnd)
    else if ts[i].TokLParen? then
      match ParseOr(os, ts, i + 1)
      case Err(e) => Err(e)
      case Ok(p) =>
        if p.next == |ts| || !ts[p.next].TokRParen? then Err(MissingRParen) else Ok(Parsed(p.expr, p.next + 1))
    else if ts[i].TokStr? && IsKnownProtocol(ts[i].text) && !OperatorAt(ts, i + 1) then
      Ok(Parsed(ProtoMatch(Lower(ts[i].text)), i + 1))
    else if !ts[i].TokField? then Err(ExpectedField(ts[i]))
    else ParseFieldTest(os, ts, i + 1, ts[i].field)
  }

  /** What may follow a field name: nothing (boolean fields), `contains` and a needle, or a comparison. */
  function ParseFieldTest(os: Platform, ts: seq<Token>, i: nat, field: Field): (r: Outcome)
    requires i <= |ts|
    ensures r.Ok? ==> i <= r.value.next <= |ts|
  {
    if field.IsBoolean() && !OperatorAt(ts, i) then Ok(Parsed(BareField(field), i))
    else if i == |ts| then Err(ExpectedOperatorAtEnd)
    else if ts[i].TokContains? then
      if i + 1 == |ts| then Err(ExpectedNeedleAtEnd)
      else
        match ts[i + 1]
        case TokStr(s) => Ok(Parsed(Contains(field, Lower(s)), i + 2))
        case TokInt(n) => Ok(Parsed(Contains(field, Numerals.Decimal(n)), i + 2))
        case other => Err(ExpectedNeedle(other))
    else if !ts[i].TokOp? then Err(ExpectedOperator(ts[i]))
    else if i + 1 == |ts| then Err(ExpectedValueAtEnd)
    else
      match ts[i + 1]
      case TokStr(s) => Ok(Parsed(Compare(field, ts[i].op, ParseValue(os, s)), i + 2))
      case TokInt(n) => Ok(Parsed(Compare(field, ts[i].op, Int(n)), i + 2))
      case other => Err(ExpectedValue(other))
  }

  function ParseTokens(os: Platform, ts: seq<Token>): (r: Result<Expr, ParseError>) {
    if ts == [] then Err(EmptyFilter)
    else
      match ParseOr(os, ts, 0)
      case Err(e) => Err(e)
      case Ok(p) => if p.next < |ts| then Err(UnexpectedToken(p.next)) else Ok(p.expr)
  }

  // ----- The parser as the program runs it: a shared position and loops -----

  /** The result `r` and the position `pos` after a call say what the outcome `want` says. */
  ghost predicate Reports(pos: nat, r: Result<Expr, ParseError>, want: Outcome) {
    match want
    case Err(e) => r == Err(e)
    case Ok(p) => r == Ok(p.expr) && pos == p.next
  }

  method ParseOrAt(os: Platform, tokens: seq<Token>, start: nat) returns (r: Result<Expr, ParseError>, pos: nat)
    requires start <= |tokens|
    ensures Reports(pos, r, ParseOr(os, tokens, start))
    decreases |tokens| - start, 4
  {
    r, pos := ParseAndAt(os, tokens, start);
    if r.Err? { return; }
    while pos < |tokens| && tokens[pos].TokOr?
      invariant r.Ok? && pos <= |tokens| && start < pos
      invariant ParseOr(os, tokens, start) == OrTail(os, tokens, pos, r.value)
      decreases |tokens| - pos
    {
      var left := r.value;
      r, pos := ParseAndAt(os, tokens, pos + 1);
      if r.Err? { return; }
      r := Ok(Or(left, r.value));
    }
  }

  method ParseAndAt(os: Platform, tokens: seq<Token>, start: nat) returns (r: Result<Expr, ParseError>, pos: nat)
    requires start <= |tokens|
    ensures Reports(pos, r, ParseAnd(os, tokens, start))
    decreases |tokens| - start, 3
  {
    r, pos := ParseNotAt(os, tokens, start);
    if r.Err? { return; }
    while pos < |tokens| && tokens[pos].TokAnd?
      invariant r.Ok? && pos <= |tokens| && start < pos
      invariant ParseAnd(os, tokens, start) == AndTail(os, tokens, pos, r.value)
      decreases |tokens| - pos
    {
      var left := r.value;
      r, pos := ParseNotAt(os, tokens, pos + 1);
      if r.Err? { return; }
      r := Ok(And(left, r.value));
    }
  }

  method ParseNotAt(os: Platform, tokens: seq<Token>, start: nat) returns (r: Result<Expr, ParseError>, pos: nat)
    requires start <= |tokens|
    ensures Reports(pos, r, ParseNot(os, tokens, start))
    decreases |tokens| - start, 2
  {
    if start < |tokens| && tokens[start].TokNot? {
      r, pos := ParseNotAt(os, tokens, start + 1);
      if r.Ok? { r := Ok(Not(r.value)); }
      return;
    }
    r, pos := ParsePrimaryAt(os, tokens, start);
  }

  method ParsePrimaryAt(os: Platform, tokens: seq<Token>, start: nat) returns (r: Result<Expr, ParseError>, pos: nat)
    requires start <= |tokens|
    ensures Reports(pos, r, ParsePrimary(os, tokens, start))
    decreases |tokens| - start, 1
  {
    pos := start;
    if pos >= |tokens| { return Err(UnexpectedEnd), pos; }

    if tokens[pos].TokLParen? {
      r, pos := ParseOrAt(os, tokens, pos + 1);
      if r.Err? { return; }
      if pos >= |tokens| || !tokens[pos].TokRParen? { return Err(MissingRParen), pos; }
      pos := pos + 1;
      return;
    }

    if tokens[pos].TokStr? && IsKnownProtocol(tokens[pos].text) {
      var nextIsOperator := pos + 1 < |tokens| && (tokens[pos + 1].TokOp? || tokens[pos + 1].TokContains?);
      if !nextIsOperator {
        r := Ok(ProtoMatch(Lower(tokens[pos].text)));
        pos := pos + 1;
        return;
      }
    }

    if !tokens[pos].TokField? { return Err(ExpectedField(tokens[pos])), pos; }
    var field := tokens[pos].field;
    pos := pos + 1;

    if field.IsBoolean() {
      var hasOperator := pos < |tokens| && (tokens[pos].TokOp? || tokens[pos].TokContains?);
      if !hasOperator { return Ok(BareField(field)), pos; }
    }
    if pos >= |tokens| { return Err(ExpectedOperatorAtEnd), pos; }

    if tokens[pos].TokContains? {
      pos := pos + 1;
      if pos >= |tokens| { return Err(ExpectedNeedleAtEnd), pos; }
      match tokens[pos] {
        case TokStr(s) => r := Ok(Contains(field, Lower(s)));
        case TokInt(n) => r := Ok(Contains(field, Numerals.Decimal(n)));
        case other => return Err(ExpectedNeedle(other)), pos;
      }
      pos := pos + 1;
      return;
    }

    if !tokens[pos].TokOp? { return Err(ExpectedOperator(tokens[pos])), pos; }
    var op := tokens[pos].op;
    pos := pos + 1;
    if pos >= |tokens| { return Err(ExpectedValueAtEnd), pos; }
    match tokens[pos] {
      case TokStr(s) => r := Ok(Compare(field, op, ParseValue(os, s)));
      case TokInt(n) => r := Ok(Compare(field, op, Int(n)));
      case other => return Err(ExpectedValue(other)), pos;
    }
    pos := pos + 1;
  }

  method ParseTokenList(os: Platform, tokens: seq<Token>) returns (r: Result<Expr, ParseError>)
    ensures r == ParseTokens(os, tokens)
  {
    if tokens == [] { return Err(EmptyFilter); }
    var pos;
    r, pos := ParseOrAt(os, tokens, 0);
    if r.Ok? && pos < |tokens| { return Err(UnexpectedToken(pos)); }
  }

  // ----- The grammar, as derivability: tokens `a` up to (not including) `b` derive `e` -----

  /** The grammar as documented, in which a string must follow `contains`, and with numbers there as well. */
  datatype Grammar = Documented | Accepted

  /** or_expr = and_expr ("or" and_expr)*, grouping to the left. */
  ghost predicate DerivesOr(g: Grammar, os: Platform, ts: seq<Token>, a: nat, b: nat, e: Expr)
    decreases b - a, 4
  {
    || DerivesAnd(g, os, ts, a, b, e)
    || (e.Or? && exists k :: a <= k < b <= |ts| && ts[k].TokOr?
                             && DerivesOr(g, os, ts, a, k, e.left) && DerivesAnd(g, os, ts, k + 1, b, e.right))
  }

  /** and_expr = not_expr ("and" not_expr)*, grouping to the left. */
  ghost predicate DerivesAnd(g: Grammar, os: Platform, ts: seq<Token>, a: nat, b: nat, e: Expr)
    decreases b - a, 3
  {
    || DerivesNot(g, os, ts, a, b, e)
    || (e.And? && exists k :: a <= k < b <= |ts| && ts[k].TokAnd?
                              && DerivesAnd(g, os, ts, a, k, e.left) && DerivesNot(g, os, ts, k + 1, b, e.right))
  }

  /** not_expr = "not" not_expr | primary. */
  ghost predicate DerivesNot(g: Grammar, os: Platform, ts: seq<Token>, a: nat, b: nat, e: Expr)
    decreases b - a, 2
  {
    || DerivesPrimary(g, os, ts, a, b, e)
    || (e.Not? && a < b <= |ts| && ts[a].TokNot? && DerivesNot(g, os, ts, a + 1, b, e.inner))
  }

  /** primary = "(" expr ")" | comparison | contains | bare_proto | bare_field. */
  ghost predicate DerivesPrimary(g: Grammar, os: Platform, ts: seq<Token>, a: nat, b: nat, e: Expr)
    decreases b - a, 1
  {
    && a < b <= |ts|
    && (|| (a + 2 <= b && ts[a].TokLParen? && ts[b - 1].TokRParen? && DerivesOr(g, os, ts, a + 1, b - 1, e))
        || IsAtom(g, os, ts[a..b], e))
  }

  ghost predicate IsAtom(g: Grammar, os: Platform, ts: seq<Token>, e: Expr) {
    match e
    case ProtoMatch(name) => |ts| == 1 && ts[0].TokStr? && IsKnownProtocol(ts[0].text) && name == Lower(ts[0].text)
    case BareField(field) => ts == [TokField(field)] && field.IsBoolean()
    case Contains(field, needle) =>
      |ts| == 3 && ts[0] == TokField(field) && ts[1].TokContains? && IsNeedle(g, ts[2], needle)
    case Compare(field, op, value) =>
      |ts| == 3 && ts[0] == TokField(field) && ts[1] == TokOp(op) && IsValue(os, ts[2], value)
    case _ => false
  }

  ghost predicate IsNeedle(g: Grammar, t: Token, needle: string) {
    || (t.TokStr? && needle == Lower(t.text))
    || (g.Accepted? && t.TokInt? && needle == Numerals.Decimal(t.number))
  }

  ghost predicate IsValue(os: Platform, t: Token, v: Value) {
    || (t.TokStr? && v == ParseValue(os, t.text))
    || (t.TokInt? && v == Int(t.number))
  }

  // ----- Everything the parser accepts is derivable -----

  lemma {:induction false} OrSound(os: Platform, ts: seq<Token>, i: nat)
    requires i <= |ts| && ParseOr(os, ts, i).Ok?
    ensures var p := ParseOr(os, ts, i).value; DerivesOr(Accepted, os, ts, i, p.next, p.expr)
    decreases |ts| - i, 4
  {
    AndSound(os, ts, i);
    var p := ParseAnd(os, ts, i).value;
    OrTailSound(os, ts, i, p.next, p.expr);
  }

  lemma {:induction false} OrTailSound(os: Platform, ts: seq<Token>, start: nat, i: nat, left: Expr)
    requires start < i <= |ts| && DerivesOr(Accepted, os, ts, start, i, left) && OrTail(os, ts, i, left).Ok?
    ensures var p := OrTail(os, ts, i, left).value; DerivesOr(Accepted, os, ts, start, p.next, p.expr)
    decreases |ts| - i, 0
  {
    if i < |ts| && ts[i].TokOr? {
      AndSound(os, ts, i + 1);
      var p := ParseAnd(os, ts, i + 1).value;
      OrTailSound(os, ts, start, p.next, Or(left, p.expr));
    }
  }

  lemma {:induction false} AndSound(os: Platform, ts: seq<Token>, i: nat)
    requires i <= |ts| && ParseAnd(os, ts, i).Ok?
    ensures var p := ParseAnd(os, ts, i).value; DerivesAnd(Accepted, os, ts, i, p.next, p.expr)
    decreases |ts| - i, 3
  {
    NotSound(os, ts, i);
    var p := ParseNot(os, ts, i).value;
    AndTailSound(os, ts, i, p.next, p.expr);
  }

  lemma {:induction false} AndTailSound(os: Platform, ts: seq<Token>, start: nat, i: nat, left: Expr)
    requires start < i <= |ts| && DerivesAnd(Accepted, os, ts, start, i, left) && AndTail(os, ts, i, left).Ok?
    ensures var p := AndTail(os, ts, i, left).value; DerivesAnd(Accepted, os, ts, start, p.next, p.expr)
    decreases |ts| - i, 0
  {
    if i < |ts| && ts[i].TokAnd? {
      NotSound(os, ts, i + 1);
      var p := ParseNot(os, ts, i + 1).value;
      AndTailSound(os, ts, start, p.next, And(left, p.expr));
    }
  }

  lemma {:induction false} NotSound(os: Platform, ts: seq<Token>, i: nat)
    requires i <= |ts| && ParseNot(os, ts, i).Ok?
    ensures var p := ParseNot(os, ts, i).value; DerivesNot(Accepted, os, ts, i, p.next, p.expr)
    decreases |ts| - i, 2
  {
    if i < |ts| && ts[i].TokNot? { NotSound(os, ts, i + 1); } else { PrimarySound(os, ts, i); }
  }

  lemma {:induction false} PrimarySound(os: Platform, ts: seq<Token>, i: nat)
    requires i <= |ts| && ParsePrimary(os, ts, i).Ok?
    ensures var p := ParsePrimary(os, ts, i).value; DerivesPrimary(Accepted, os, ts, i, p.next, p.expr)
    decreases |ts| - i, 1
  {
    if ts[i].TokLParen? { OrSound(os, ts, i + 1); }
  }

  // ----- Everything derivable is accepted, and with that expression -----

  /** The token after a phrase does not extend it: at `i` there is no operator, and no `and` / `or` if so asked. */
  predicate EndsAt(ts: seq<Token>, i: nat, noAnd: bool, noOr: bool) {
    && !OperatorAt(ts, i)
    && (noAnd && i < |ts| ==> !ts[i].TokAnd?)
    && (noOr && i < |ts| ==> !ts[i].TokOr?)
  }

  lemma {:induction false} OrComplete(os: Platform, ts: seq<Token>, a: nat, b: nat, e: Expr)
    requires DerivesOr(Accepted, os, ts, a, b, e) && EndsAt(ts, b, true, false)
    ensures a < b <= |ts| && ParseOr(os, ts, a) == OrTail(os, ts, b, e)
    decreases b - a, 4
  {
    if DerivesAnd(Accepted, os, ts, a, b, e) {
      AndComplete(os, ts, a, b, e);
    } else {
      var k :| a <= k < b <= |ts| && ts[k].TokOr?
               && DerivesOr(Accepted, os, ts, a, k, e.left) && DerivesAnd(Accepted, os, ts, k + 1, b, e.right);
      OrComplete(os, ts, a, k, e.left);
      AndComplete(os, ts, k + 1, b, e.right);
    }
  }

  lemma {:induction false} AndComplete(os: Platform, ts: seq<Token>, a: nat, b: nat, e: Expr)
    requires DerivesAnd(Accepted, os, ts, a, b, e) && EndsAt(ts, b, false, false)
    ensures a < b <= |ts| && ParseAnd(os, ts, a) == AndTail(os, ts, b, e)
    decreases b - a, 3
  {
    if DerivesNot(Accepted, os, ts, a, b, e) {
      NotComplete(os, ts, a, b, e);
    } else {
      var k :| a <= k < b <= |ts| && ts[k].TokAnd?
               && DerivesAnd(Accepted, os, ts, a, k, e.left) && DerivesNot(Accepted, os, ts, k + 1, b, e.right);
      AndComplete(os, ts, a, k, e.left);
      NotComplete(os, ts, k + 1, b, e.right);
    }
  }

  lemma {:induction false} NotComplete(os: Platform, ts: seq<Token>, a: nat, b: nat, e: Expr)
    requires DerivesNot(Accepted, os, ts, a, b, e) && EndsAt(ts, b, false, false)
    ensures a < b <= |ts| && ParseNot(os, ts, a) == Ok(Parsed(e, b))
    decreases b - a, 2
  {
    if DerivesPrimary(Accepted, os, ts, a, b, e) {
      PrimaryComplete(os, ts, a, b, e);
    } else {
      NotComplete(os, ts, a + 1, b, e.inner);
    }
  }

  lemma {:induction false} PrimaryComplete(os: Platform, ts: seq<Token>, a: nat, b: nat, e: Expr)
    requires DerivesPrimary(Accepted, os, ts, a, b, e) && EndsAt(ts, b, false, false)
    ensures a < b <= |ts| && !ts[a].TokNot? && ParsePrimary(os, ts, a) == Ok(Parsed(e, b))
    decreases b - a, 1
  {
    var atom := ts[a..b];
    if IsAtom(Accepted, os, atom, e) {
      assert atom[0] == ts[a];
      if |atom| == 3 { assert atom[1] == ts[a + 1] && atom[2] == ts[a + 2]; }
    } else {
      OrComplete(os, ts, a + 1, b - 1, e);
    }
  }

  /**
   * The parser accepts a token list exactly when the wider grammar derives it, with exactly the derived expression.
   * The grammar has no lookahead: the parser's two lookahead tests never reject or change a derivable list.
   */
  lemma ParsesExactlyTheGrammar(os: Platform, ts: seq<Token>, e: Expr)
    ensures ParseTokens(os, ts) == Ok(e) <==> DerivesOr(Accepted, os, ts, 0, |ts|, e)
  {
    if ParseTokens(os, ts) == Ok(e) {
      OrSound(os, ts, 0);
    }
    if DerivesOr(Accepted, os, ts, 0, |ts|, e) {
      OrComplete(os, ts, 0, |ts|, e);
    }
  }

  /** The grammar is unambiguous: a token list derives at most one expression. */
  lemma GrammarIsUnambiguous(os: Platform, ts: seq<Token>, e: Expr, f: Expr)
    requires DerivesOr(Accepted, os, ts, 0, |ts|, e) && DerivesOr(Accepted, os, ts, 0, |ts|, f)
    ensures e == f
  {
    ParsesExactlyTheGrammar(os, ts, e);
    ParsesExactlyTheGrammar(os, ts, f);
  }

  // ----- The documented grammar -----

  /** No number directly follows `contains` among the tokens `a` up to `b`. */
  ghost predicate NoNumberNeedle(ts: seq<Token>, a: nat, b: nat)
    requires b <= |ts|
  {
    forall k :: a <= k && k + 1 < b ==> !(ts[k].TokContains? && ts[k + 1].TokInt?)
  }

  lemma NeedlesApart(ts: seq<Token>, a: nat, k: nat, b: nat)
    requires a <= k < b <= |ts| && !ts[k].TokContains? && !ts[k].TokInt?
    ensures NoNumberNeedle(ts, a, b) <==> NoNumberNeedle(ts, a, k) && NoNumberNeedle(ts, k + 1, b)
  {}

  lemma {:induction false} OrDocumentedIff(os: Platform, ts: seq<Token>, a: nat, b: nat, e: Expr)
    requires b <= |ts|
    ensures DerivesOr(Documented, os, ts, a, b, e) <==> DerivesOr(Accepted, os, ts, a, b, e) && NoNumberNeedle(ts, a, b)
    decreases b - a, 4
  {
    hide NoNumberNeedle;
    AndDocumentedIff(os, ts, a, b, e);
    if e.Or? {
      forall k | a <= k < b && ts[k].TokOr?
        ensures DerivesOr(Documented, os, ts, a, k, e.left) && DerivesAnd(Documented, os, ts, k + 1, b, e.right)
                <==> DerivesOr(Accepted, os, ts, a, k, e.left) && DerivesAnd(Accepted, os, ts, k + 1, b, e.right)
                     && NoNumberNeedle(ts, a, b)
      {
        OrDocumentedIff(os, ts, a, k, e.left);
        AndDocumentedIff(os, ts, k + 1, b, e.right);
        NeedlesApart(ts, a, k, b);
      }
    }
  }

  lemma {:induction false} AndDocumentedIff(os: Platform, ts: seq<Token>, a: nat, b: nat, e: Expr)
    requires b <= |ts|
    ensures DerivesAnd(Documented, os, ts, a, b, e) <==> DerivesAnd(Accepted, os, ts, a, b, e) && NoNumberNeedle(ts, a, b)
    decreases b - a, 3
  {
    hide NoNumberNeedle;
    NotDocumentedIff(os, ts, a, b, e);
    if e.And? {
      forall k | a <= k < b && ts[k].TokAnd?
        ensures DerivesAnd(Documented, os, ts, a, k, e.left) && DerivesNot(Documented, os, ts, k + 1, b, e.right)
                <==> DerivesAnd(Accepted, os, ts, a, k, e.left) && DerivesNot(Accepted, os, ts, k + 1, b, e.right)
                     && NoNumberNeedle(ts, a, b)
      {
        AndDocumentedIff(os, ts, a, k, e.left);
        NotDocumentedIff(os, ts, k + 1, b, e.right);
        NeedlesApart(ts, a, k, b);
      }
    }
  }

  lemma {:induction false} NotDocumentedIff(os: Platform, ts: seq<Token>, a: nat, b: nat, e: Expr)
    requires b <= |ts|
    ensures DerivesNot(Documented, os, ts, a, b, e) <==> DerivesNot(Accepted, os, ts, a, b, e) && NoNumberNeedle(ts, a, b)
    decreases b - a, 2
  {
    hide NoNumberNeedle, DerivesPrimary;
    PrimaryDocumentedIff(os, ts, a, b, e);
    if e.Not? && a < b && ts[a].TokNot? {
      NotDocumentedIff(os, ts, a + 1, b, e.inner);
      NeedlesApart(ts, a, a, b);
      NothingHasNeedles(ts, a);
    }
  }

  lemma NothingHasNeedles(ts: seq<Token>, a: nat)
    requires a <= |ts|
    ensures NoNumberNeedle(ts, a, a)
  {}

  lemma {:induction false} PrimaryDocumentedIff(os: Platform, ts: seq<Token>, a: nat, b: nat, e: Expr)
    requires b <= |ts|
    ensures DerivesPrimary(Documented, os, ts, a, b, e)
            <==> DerivesPrimary(Accepted, os, ts, a, b, e) && NoNumberNeedle(ts, a, b)
    decreases b - a, 1
  {
    hide NoNumberNeedle, IsAtom;
    if a < b {
      AtomDocumentedIff(os, ts, a, b, e);
      if a + 2 <= b && ts[a].TokLParen? && ts[b - 1].TokRParen? {
        OrDocumentedIff(os, ts, a + 1, b - 1, e);
        NeedlesApart(ts, a, a, b);
        NeedlesApart(ts, a + 1, b - 1, b);
        NothingHasNeedles(ts, a);
        NothingHasNeedles(ts, b);
      }
    }
  }

  lemma AtomDocumentedIff(os: Platform, ts: seq<Token>, a: nat, b: nat, e: Expr)
    requires a < b <= |ts|
    ensures IsAtom(Documented, os, ts[a..b], e) <==> IsAtom(Accepted, os, ts[a..b], e) && NoNumberNeedle(ts, a, b)
  {
    var atom := ts[a..b];
    assert atom[0] == ts[a];
    if b == a + 3 { assert atom[1] == ts[a + 1] && atom[2] == ts[a + 2]; }
  }

  /** The documented grammar derives exactly what is parsed from token lists with no number directly after `contains`. */
  lemma DocumentedIff(os: Platform, ts: seq<Token>, e: Expr)
    ensures DerivesOr(Documented, os, ts, 0, |ts|, e) <==> ParseTokens(os, ts) == Ok(e) && NoNumberNeedle(ts, 0, |ts|)
  {
    OrDocumentedIff(os, ts, 0, |ts|, e);
    ParsesExactlyTheGrammar(os, ts, e);
  }

  /** A number after `contains` is accepted; the documented grammar derives nothing from such a list. */
  lemma NumberNeedleTokens(os: Platform, f: Field, n: u64)
    ensures var ts := [TokField(f), TokContains, TokInt(n)];
            && ParseTokens(os, ts) == Ok(Contains(f, Numerals.Decimal(n)))
            && forall e :: !DerivesOr(Documented, os, ts, 0, |ts|, e)
  {
    var ts := [TokField(f), TokContains, TokInt(n)];
    NumberNeedleParses(os, f, n);
    hide DerivesOr, ParseTokens;
    assert ts[1].TokContains? && ts[2].TokInt?;
    forall e ensures !DerivesOr(Documented, os, ts, 0, |ts|, e) {
      DocumentedIff(os, ts, e);
    }
  }

  lemma NumberNeedleParses(os: Platform, f: Field, n: u64)
    ensures ParseTokens(os, [TokField(f), TokContains, TokInt(n)]) == Ok(Contains(f, Numerals.Decimal(n)))
  {
    var ts, e := [TokField(f), TokContains, TokInt(n)], Contains(f, Numerals.Decimal(n));
    assert ts[0..3] == ts;
    assert DerivesPrimary(Accepted, os, ts, 0, 3, e);
    assert DerivesNot(Accepted, os, ts, 0, 3, e);
    assert DerivesAnd(Accepted, os, ts, 0, 3, e);
    ParsesExactlyTheGrammar(os, ts, e);
  }
}
