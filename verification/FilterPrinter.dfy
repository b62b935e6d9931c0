/** Printing filter expressions with minimal parentheses, and the proof that the program's parser undoes it. */
module FilterPrinter {
  import opened Prelude
  import opened FilterAst
  import opened FilterParser
  import opened FilterLexer
  import Numerals

  /** Where an expression stands: anywhere, as an operand of `and` / right of `or`, or right of `and` / under `not`. */
  datatype Level = Anywhere | Conjunct | Operand

  function ValueToken(os: Platform, v: Value): (t: Token) {
    match v
    case Str(s) => TokStr(s)
    case Int(n) => TokInt(n)
    case Cidr(addr, len) => TokStr(os.printIp(addr) + "/" + Numerals.Decimal(len))
  }

  predicate NeedsParens(e: Expr, level: Level) {
    (e.Or? && level != Anywhere) || (e.And? && level == Operand)
  }

  function Show(os: Platform, e: Expr, level: Level): (ts: seq<Token>)
    decreases e, if NeedsParens(e, level) then 1 else 0
  {
    if NeedsParens(e, level) then [TokLParen] + Show(os, e, Anywhere) + [TokRParen]
    else
      match e
      case Or(l, r) => Show(os, l, Anywhere) + [TokOr] + Show(os, r, Conjunct)
      case And(l, r) => Show(os, l, Conjunct) + [TokAnd] + Show(os, r, Operand)
      case Not(x) => [TokNot] + Show(os, x, Operand)
      case ProtoMatch(name) => [TokStr(name)]
      case BareField(f) => [TokField(f)]
      case Contains(f, needle) => [TokField(f), TokContains, TokStr(needle)]
      case Compare(f, op, v) => [TokField(f), TokOp(op), ValueToken(os, v)]
  }

  function ShowText(os: Platform, e: Expr): (s: string) {
    Spaced(os, Show(os, e, Anywhere))
  }

  function ParseText(os: Platform, input: string): (r: Result<Expr, ParseError>) {
    match LexFrom(os, input, 0)
    case Err(e) => Err(e)
    case Ok(ts) => ParseTokens(os, ts)
  }

  /** `parser::parse`. */
  method Parse(os: Platform, input: string) returns (r: Result<Expr, ParseError>)
    ensures r == ParseText(os, input)
  {
    var tokens := Tokenize(os, input);
    if tokens.Err? { return Err(tokens.error); }
    r := ParseTokenList(os, tokens.value);
  }

  /** An address, a slash, and a prefix length that the address admits; there is no slash behind this one. */
  ghost predicate IsCidrText(os: Platform, s: string) {
    exists k :: 0 <= k < |s| && s[k] == '/' && '/' !in s[k + 1..] && IsCidrAt(os, s, k)
  }

  ghost predicate IsCidrAt(os: Platform, s: string, k: nat)
    requires k < |s|
  {
    var len, addr := Numerals.ParseUnsigned(s[k + 1..], 10, 255), os.parseIp(s[..k]);
    len.Some? && addr.Some? && len.value <= addr.value.Width()
  }

  /** A string value stays a string exactly if it is not the text of a CIDR. */
  lemma StringValueIff(os: Platform, s: string)
    ensures ParseValue(os, s) == Str(s) <==> !IsCidrText(os, s)
    ensures ParseValue(os, s).Str? ==> ParseValue(os, s) == Str(s)
  {
    if k :| 0 <= k < |s| && s[k] == '/' && '/' !in s[k + 1..] && IsCidrAt(os, s, k) {
      forall j | k < j < |s| ensures s[j] != '/' { assert s[j] == s[k + 1..][j - k - 1]; }
      LastSlashIs(s, k);
    }
  }

  ghost predicate ProperValue(os: Platform, v: Value) {
    match v
    case Str(s) => '"' !in s && !IsCidrText(os, s)
    case Int(_) => true
    case Cidr(addr, len) => len <= addr.Width()
  }

  /** The expressions the filter language can express. */
  ghost predicate Proper(os: Platform, e: Expr) {
    match e
    case Or(l, r) => Proper(os, l) && Proper(os, r)
    case And(l, r) => Proper(os, l) && Proper(os, r)
    case Not(x) => Proper(os, x)
    case ProtoMatch(name) => name in ProtocolNames && Lower(name) == name
    case BareField(f) => f.IsBoolean()
    case Contains(_, needle) => '"' !in needle && Lower(needle) == needle
    case Compare(_, _, v) => ProperValue(os, v)
  }

  // ----- Printed expressions are derivable -----

  lemma {:induction false} LastSlashIs(s: string, k: nat)
    requires k < |s| && s[k] == '/' && forall j :: k < j < |s| ==> s[j] != '/'
    ensures LastSlash(s) == Some(k)
  {
    if k < |s| - 1 { LastSlashIs(s[..|s| - 1], k); }
  }

  lemma CidrTextReads(os: Platform, addr: Address, len: nat)
    requires os.Lawful() && len <= addr.Width()
    ensures ParseValue(os, os.printIp(addr) + "/" + Numerals.Decimal(len)) == Cidr(addr, len)
  {
    var a, d := os.printIp(addr), Numerals.Decimal(len);
    var s := a + "/" + d;
    LastSlashIs(s, |a|);
    assert s[..|a|] == a && s[|a| + 1..] == d;
    Numerals.ParseDecimal(len, 255);
  }

  lemma AtomShowDerives(os: Platform, e: Expr, level: Level)
    requires os.Lawful() && Proper(os, e) && !e.Or? && !e.And? && !e.Not?
    ensures IsAtom(Accepted, os, Show(os, e, level), e)
  {
    if e.Compare? && e.value.Cidr? { CidrTextReads(os, e.value.addr, e.value.prefixLen); }
    if e.Compare? && e.value.Str? { StringValueIff(os, e.value.text); }
  }

  ghost predicate DerivesAt(os: Platform, ts: seq<Token>, a: nat, b: nat, e: Expr, level: Level) {
    match level
    case Anywhere => DerivesOr(Accepted, os, ts, a, b, e)
    case Conjunct => DerivesAnd(Accepted, os, ts, a, b, e)
    case Operand => DerivesNot(Accepted, os, ts, a, b, e)
  }

  lemma OperandFitsAnywhere(os: Platform, ts: seq<Token>, a: nat, b: nat, e: Expr, level: Level)
    requires DerivesPrimary(Accepted, os, ts, a, b, e) || DerivesNot(Accepted, os, ts, a, b, e)
    ensures DerivesAt(os, ts, a, b, e, level)
  {
    assert DerivesNot(Accepted, os, ts, a, b, e);
    assert DerivesAnd(Accepted, os, ts, a, b, e);
  }

  lemma AndFitsConjunct(os: Platform, ts: seq<Token>, a: nat, k: nat, b: nat, e: Expr, level: Level)
    requires a <= k < b <= |ts| && ts[k].TokAnd? && e.And? && level != Operand
    requires DerivesAnd(Accepted, os, ts, a, k, e.left) && DerivesNot(Accepted, os, ts, k + 1, b, e.right)
    ensures DerivesAt(os, ts, a, b, e, level)
  {
    assert DerivesAnd(Accepted, os, ts, a, b, e);
  }

  /** Where the parts of a printed binary expression stand. */
  lemma SliceParts(ts: seq<Token>, a: nat, b: nat, left: seq<Token>, t: Token, right: seq<Token>)
    requires a <= b <= |ts| && ts[a..b] == left + [t] + right
    ensures var k := a + |left|; k + 1 + |right| == b && ts[a..k] == left && ts[k] == t && ts[k + 1..b] == right
  {
    var k, n := a + |left|, |left|;
    var slice := ts[a..b];
    assert slice[..n] == left && slice[n] == t && slice[n + 1..] == right;
    assert ts[a..k] == slice[..n];
    assert ts[k + 1..b] == slice[n + 1..];
  }

  lemma ParensStand(os: Platform, e: Expr, level: Level, ts: seq<Token>, a: nat, b: nat)
    requires NeedsParens(e, level) && a <= b <= |ts| && ts[a..b] == Show(os, e, level)
    ensures a + 2 <= b && ts[a].TokLParen? && ts[b - 1].TokRParen? && ts[a + 1..b - 1] == Show(os, e, Anywhere)
  {
    var inner := Show(os, e, Anywhere);
    assert ts[a..b] == [] + [TokLParen] + (inner + [TokRParen]);
    SliceParts(ts, a, b, [], TokLParen, inner + [TokRParen]);
    assert ts[a + 1..b] == inner + [TokRParen] + [];
    SliceParts(ts, a + 1, b, inner, TokRParen, []);
  }

  lemma {:induction false} ShowDerives(os: Platform, e: Expr, level: Level, ts: seq<Token>, a: nat, b: nat)
    requires os.Lawful() && Proper(os, e) && a <= b <= |ts| && ts[a..b] == Show(os, e, level)
    ensures DerivesAt(os, ts, a, b, e, level)
    decreases e, if NeedsParens(e, level) then 2 else 1
  {
    if NeedsParens(e, level) {
      ParensStand(os, e, level, ts, a, b);
      ShowDerives(os, e, Anywhere, ts, a + 1, b - 1);
      OperandFitsAnywhere(os, ts, a, b, e, level);
    } else if e.Or? || e.And? {
      ShowBinaryDerives(os, e, level, ts, a, b);
    } else if e.Not? {
      var x := Show(os, e.inner, Operand);
      assert [TokNot] + x == [] + [TokNot] + x;
      SliceParts(ts, a, b, [], TokNot, x);
      ShowDerives(os, e.inner, Operand, ts, a + 1, b);
      OperandFitsAnywhere(os, ts, a, b, e, level);
    } else {
      AtomShowDerives(os, e, level);
      OperandFitsAnywhere(os, ts, a, b, e, level);
    }
  }

  lemma {:induction false} ShowBinaryDerives(os: Platform, e: Expr, level: Level, ts: seq<Token>, a: nat, b: nat)
    requires os.Lawful() && Proper(os, e) && a <= b <= |ts| && ts[a..b] == Show(os, e, level)
    requires (e.Or? || e.And?) && !NeedsParens(e, level)
    ensures DerivesAt(os, ts, a, b, e, level)
    decreases e, 0
  {
    hide IsAtom, DerivesPrimary;
    if e.Or? {
      var l, r := Show(os, e.left, Anywhere), Show(os, e.right, Conjunct);
      SliceParts(ts, a, b, l, TokOr, r);
      ShowDerives(os, e.left, Anywhere, ts, a, a + |l|);
      ShowDerives(os, e.right, Conjunct, ts, a + |l| + 1, b);
    } else {
      var l, r := Show(os, e.left, Conjunct), Show(os, e.right, Operand);
      SliceParts(ts, a, b, l, TokAnd, r);
      ShowDerives(os, e.left, Conjunct, ts, a, a + |l|);
      ShowDerives(os, e.right, Operand, ts, a + |l| + 1, b);
      AndFitsConjunct(os, ts, a, a + |l|, b, e, level);
    }
  }

  lemma PrintableAround(a: seq<Token>, t: Token, b: seq<Token>)
    requires AllPrintable(a) && Printable(t) && AllPrintable(b)
    ensures AllPrintable(a + [t] + b)
    ensures a == [] ==> AllPrintable([t] + b)
  {
    assert a == [] ==> a + [t] + b == [t] + b;
  }

  lemma PrintableName(name: string)
    requires name in ProtocolNames
    ensures AllPrintable([TokStr(name)])
  {
    assert '"' !in name;
  }

  lemma AtomIsPrintable(os: Platform, e: Expr, level: Level)
    requires os.Lawful() && Proper(os, e) && (e.BareField? || e.Contains? || e.Compare?)
    ensures AllPrintable(Show(os, e, level))
  {}

  lemma {:induction false} ShowIsPrintable(os: Platform, e: Expr, level: Level)
    requires os.Lawful() && Proper(os, e)
    ensures AllPrintable(Show(os, e, level))
    decreases e, if NeedsParens(e, level) then 1 else 0
  {
    hide AllPrintable, ProtocolNames, ValueToken;
    if NeedsParens(e, level) {
      var inner := Show(os, e, Anywhere);
      ShowIsPrintable(os, e, Anywhere);
      PrintableAround([], TokLParen, inner);
      PrintableAround([TokLParen] + inner, TokRParen, []);
      assert [TokLParen] + inner + [TokRParen] + [] == [TokLParen] + inner + [TokRParen];
    } else {
      match e {
        case Or(l, r) =>
          ShowIsPrintable(os, l, Anywhere);
          ShowIsPrintable(os, r, Conjunct);
          PrintableAround(Show(os, l, Anywhere), TokOr, Show(os, r, Conjunct));
        case And(l, r) =>
          ShowIsPrintable(os, l, Conjunct);
          ShowIsPrintable(os, r, Operand);
          PrintableAround(Show(os, l, Conjunct), TokAnd, Show(os, r, Operand));
        case Not(x) =>
          ShowIsPrintable(os, x, Operand);
          PrintableAround([], TokNot, Show(os, x, Operand));
        case ProtoMatch(name) => PrintableName(name);
        case _ => AtomIsPrintable(os, e, level);
      }
    }
  }

  /** Round trip: the parser reads the printed text of every expressible filter as exactly that filter. */
  lemma ParseUndoesShow(os: Platform, e: Expr)
    requires os.Lawful() && Proper(os, e)
    ensures ParseText(os, ShowText(os, e)) == Ok(e)
  {
    var ts := Show(os, e, Anywhere);
    ShowIsPrintable(os, e, Anywhere);
    LexSpaced(os, ts);
    assert ts[0..|ts|] == ts;
    ShowDerives(os, e, Anywhere, ts, 0, |ts|);
    ParsesExactlyTheGrammar(os, ts, e);
  }

  // ----- Nothing else can be parsed, and no shorter token list has the same meaning -----

  lemma LowerTwice(s: string)
    ensures Lower(Lower(s)) == Lower(s)
  {}

  lemma QuoteSurvivesLower(s: string)
    requires '"' !in s
    ensures '"' !in Lower(s)
  {
    assert forall i :: 0 <= i < |s| ==> s[i] != '"' && LowerChar(s[i]) != '"';
  }

  lemma AtomIsProper(os: Platform, ts: seq<Token>, e: Expr)
    requires IsAtom(Accepted, os, ts, e) && AllPrintable(ts)
    ensures Proper(os, e) && forall level :: |Show(os, e, level)| == |ts|
  {
    match e {
      case ProtoMatch(_) => LowerTwice(ts[0].text);
      case Contains(_, _) =>
        assert Printable(ts[2]);
        if ts[2].TokStr? {
          LowerTwice(ts[2].text);
          QuoteSurvivesLower(ts[2].text);
        } else {
          assert Lower(e.needle) == e.needle;
        }
      case Compare(_, _, _) =>
        assert Printable(ts[2]);
        if ts[2].TokStr? { StringValueIff(os, ts[2].text); }
      case _ =>
    }
  }

  lemma PrintableSlice(ts: seq<Token>, a: nat, b: nat)
    requires a <= b <= |ts| && AllPrintable(ts)
    ensures AllPrintable(ts[a..b])
  {
    assert forall t <- ts[a..b] :: t in ts;
  }

  lemma {:induction false} ParensCostTwo(os: Platform, e: Expr)
    ensures |Show(os, e, Anywhere)| <= |Show(os, e, Conjunct)| <= |Show(os, e, Operand)|
    ensures |Show(os, e, Operand)| <= |Show(os, e, Anywhere)| + 2
  {}

  lemma {:induction false} DerivedIsProper(os: Platform, ts: seq<Token>, a: nat, b: nat, e: Expr, level: Level)
    requires AllPrintable(ts) && DerivesAt(os, ts, a, b, e, level)
    ensures Proper(os, e) && |Show(os, e, level)| <= b - a
    decreases b - a, match level case Anywhere => 2 case Conjunct => 1 case Operand => 0
  {
    hide IsAtom, AllPrintable;
    ParensCostTwo(os, e);
    match level {
      case Anywhere =>
        if DerivesAnd(Accepted, os, ts, a, b, e) {
          DerivedIsProper(os, ts, a, b, e, Conjunct);
        } else {
          var k :| a <= k < b <= |ts| && ts[k].TokOr?
                   && DerivesOr(Accepted, os, ts, a, k, e.left) && DerivesAnd(Accepted, os, ts, k + 1, b, e.right);
          DerivedIsProper(os, ts, a, k, e.left, Anywhere);
          DerivedIsProper(os, ts, k + 1, b, e.right, Conjunct);
        }
      case Conjunct =>
        if DerivesNot(Accepted, os, ts, a, b, e) {
          DerivedIsProper(os, ts, a, b, e, Operand);
        } else {
          var k :| a <= k < b <= |ts| && ts[k].TokAnd?
                   && DerivesAnd(Accepted, os, ts, a, k, e.left) && DerivesNot(Accepted, os, ts, k + 1, b, e.right);
          DerivedIsProper(os, ts, a, k, e.left, Conjunct);
          DerivedIsProper(os, ts, k + 1, b, e.right, Operand);
        }
      case Operand =>
        if !DerivesPrimary(Accepted, os, ts, a, b, e) {
          DerivedIsProper(os, ts, a + 1, b, e.inner, Operand);
        } else if IsAtom(Accepted, os, ts[a..b], e) {
          PrintableSlice(ts, a, b);
          AtomIsProper(os, ts[a..b], e);
        } else {
          DerivedIsProper(os, ts, a + 1, b - 1, e, Anywhere);
        }
    }
  }

  /** The printed form is a shortest one: no printable token list that parses to `e` has fewer tokens. */
  lemma ShowIsShortest(os: Platform, ts: seq<Token>, e: Expr)
    requires AllPrintable(ts) && ParseTokens(os, ts) == Ok(e)
    ensures |Show(os, e, Anywhere)| <= |ts|
  {
    ParsesExactlyTheGrammar(os, ts, e);
    DerivedIsProper(os, ts, 0, |ts|, e, Anywhere);
  }

  /** The language's range: an expression is the parse of some text exactly when it is proper. */
  lemma ParsedIffProper(os: Platform, e: Expr)
    requires os.Lawful()
    ensures Proper(os, e) <==> exists input :: ParseText(os, input) == Ok(e)
  {
    if Proper(os, e) {
      ParseUndoesShow(os, e);
    }
    forall input | ParseText(os, input) == Ok(e) ensures Proper(os, e) {
      LexedArePrintable(os, input, 0);
      var ts := LexFrom(os, input, 0).value;
      ParsesExactlyTheGrammar(os, ts, e);
      DerivedIsProper(os, ts, 0, |ts|, e, Anywhere);
    }
  }

  /** Texts such as `info contains 5` are parsed, although the documented grammar does not derive their tokens. */
  lemma NumberNeedleIsParsed(os: Platform, f: Field, n: u64)
    requires os.Lawful()
    ensures var ts := [TokField(f), TokContains, TokInt(n)];
            var text := FieldName(f) + " contains " + Numerals.Decimal(n) + " ";
            && LexFrom(os, text, 0) == Ok(ts) && ParseText(os, text) == Ok(Contains(f, Numerals.Decimal(n)))
            && forall e :: !DerivesOr(Documented, os, ts, 0, |ts|, e)
  {
    var ts := [TokField(f), TokContains, TokInt(n)];
    hide DerivesOr, LexFrom, ParseTokens, FieldName;
    NumberNeedleText(os, f, n);
    LexSpaced(os, ts);
    NumberNeedleTokens(os, f, n);
  }

  lemma NumberNeedleText(os: Platform, f: Field, n: u64)
    ensures Spaced(os, [TokField(f), TokContains, TokInt(n)]) == FieldName(f) + " contains " + Numerals.Decimal(n) + " "
  {
    hide *;
    assert [TokContains] + [TokInt(n)] == [TokContains, TokInt(n)] && [TokInt(n)] + [] == [TokInt(n)];
    assert [TokField(f)] + [TokContains, TokInt(n)] == [TokField(f), TokContains, TokInt(n)];
    SpacedNothing(os);
    SpacedFirst(os, TokField(f), [TokContains, TokInt(n)]);
    SpacedFirst(os, TokContains, [TokInt(n)]);
    SpacedFirst(os, TokInt(n), []);
    ThreeTexts(os, f, n);
  }

  lemma SpacedNothing(os: Platform)
    ensures Spaced(os, []) == ""
  {}

  lemma SpacedFirst(os: Platform, t: Token, ts: seq<Token>)
    ensures Spaced(os, [t] + ts) == TokenText(os, t) + " " + Spaced(os, ts)
  {
    hide TokenText;
    assert ([t] + ts)[1..] == ts;
  }

  lemma ThreeTexts(os: Platform, f: Field, n: u64)
    ensures TokenText(os, TokField(f)) == FieldName(f) && TokenText(os, TokContains) == "contains"
    ensures TokenText(os, TokInt(n)) == Numerals.Decimal(n)
  {}

  /** Normalising a filter's text: printing what was parsed and parsing again changes nothing. */
  lemma ReprintKeepsMeaning(os: Platform, input: string)
    requires os.Lawful() && ParseText(os, input).Ok?
    ensures ParseText(os, ShowText(os, ParseText(os, input).value)) == ParseText(os, input)
  {
    var e := ParseText(os, input).value;
    ParsedIffProper(os, e);
    ParseUndoesShow(os, e);
  }

  // ----- The laws asked of the platform can be met -----

  function SamplePrint(a: Address): (s: string) {
    match a
    case V4(n) => Numerals.Decimal(n)
    case V6(n) => ":" + Numerals.Decimal(n)
  }

  function SampleParse(s: string): (r: Option<Address>) {
    if s != [] && s[0] == ':' then
      match Numerals.ParseUnsigned(s[1..], 10, 0xffff_ffff_ffff_ffff_ffff_ffff_ffff_ffff)
      case Some(n) => Some(V6(n))
      case None => None
    else
      match Numerals.ParseUnsigned(s, 10, 0xffff_ffff)
      case Some(n) => Some(V4(n))
      case None => None
  }

  /** `Lawful` is satisfiable, so the theorems above are about something. */
  lemma SomePlatformIsLawful()
    ensures exists os: Platform :: os.Lawful()
  {
    var os := Platform((c: char) => c == ' ' || '\t' <= c <= '\r', IsAsciiAlnum, SampleParse, SamplePrint);
    forall a: Address ensures os.parseIp(os.printIp(a)) == Some(a) {
      match a {
        case V4(n) => Numerals.ParseDecimal(n, 0xffff_ffff);
        case V6(n) =>
          assert SamplePrint(a)[1..] == Numerals.Decimal(n);
          Numerals.ParseDecimal(n, 0xffff_ffff_ffff_ffff_ffff_ffff_ffff_ffff);
      }
    }
    assert os.Lawful();
  }
}
