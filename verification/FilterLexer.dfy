/** The filter tokenizer, and the proof that it reads back every spaced-out printable token list. */
module FilterLexer {
  import opened Prelude
  import opened FilterAst
  import opened FilterParser
  import Numerals

  const MAX_U64: nat := 0xffff_ffff_ffff_ffff

  /** The reserved word `lower` stands for, if it is one. */
  function Keyword(lower: string): (t: Option<Token>) {
    match lower
    case "and" => Some(TokAnd)
    case "or" => Some(TokOr)
    case "not" => Some(TokNot)
    case "contains" => Some(TokContains)
    case "ip.src" => Some(TokField(IpSrc))
    case "ip.dst" => Some(TokField(IpDst))
    case "ip.addr" => Some(TokField(IpAddr))
    case "port.src" => Some(TokField(PortSrc))
    case "tcp.srcport" => Some(TokField(PortSrc))
    case "udp.srcport" => Some(TokField(PortSrc))
    case "port.dst" => Some(TokField(PortDst))
    case "tcp.dstport" => Some(TokField(PortDst))
    case "udp.dstport" => Some(TokField(PortDst))
    case "port" => Some(TokField(Port))
    case "proto" => Some(TokField(Proto))
    case "len" => Some(TokField(Len))
    case "frame.len" => Some(TokField(Len))
    case "info" => Some(TokField(Info))
    case "eth.src" => Some(TokField(EthSrc))
    case "eth.dst" => Some(TokField(EthDst))
    case "eth.addr" => Some(TokField(EthAddr))
    case "vlan.id" => Some(TokField(VlanId))
    case "tcp.flags.syn" => Some(TokField(TcpFlagSyn))
    case "tcp.flags.ack" => Some(TokField(TcpFlagAck))
    case "tcp.flags.fin" => Some(TokField(TcpFlagFin))
    case "tcp.flags.rst" => Some(TokField(TcpFlagRst))
    case "tcp.flags.psh" => Some(TokField(TcpFlagPsh))
    case "tcp.flags.urg" => Some(TokField(TcpFlagUrg))
    case "pf.action" => Some(TokField(PfAction))
    case "pf.direction" => Some(TokField(PfDirection))
    case "pf.dir" => Some(TokField(PfDirection))
    case "pf.ifname" => Some(TokField(PfIfname))
    case "pf.interface" => Some(TokField(PfIfname))
    case "pf.rule" => Some(TokField(PfRule))
    case "pf.reason" => Some(TokField(PfReason))
    case "enc.spi" => Some(TokField(EncSpi))
    case "enc.flags" => Some(TokField(EncFlags))
    case _ => None
  }

  /** The token of a maximal run of word characters. */
  function Classify(word: string): (t: Token) {
    var lower := Lower(word);
    match Keyword(lower)
    case Some(t) => t
    case None =>
      match Numerals.ParseUnsigned(word, 10, MAX_U64)
      case Some(n) => TokInt(n)
      case None =>
        if |lower| >= 2 && lower[..2] == "0x" then
          match Numerals.ParseUnsigned(lower[2..], 16, MAX_U64)
          case Some(n) => TokInt(n)
          case None => TokStr(word)
        else TokStr(word)
  }

  function WordEnd(os: Platform, s: string, i: nat): (j: nat)
    requires i <= |s|
    ensures i <= j <= |s|
    ensures forall k :: i <= k < j ==> os.IsWordChar(s[k])
    ensures j < |s| ==> !os.IsWordChar(s[j])
    decreases |s| - i
  {
    if i < |s| && os.IsWordChar(s[i]) then WordEnd(os, s, i + 1) else i
  }

  function QuoteEnd(s: string, i: nat): (j: nat)
    requires i <= |s|
    ensures i <= j <= |s|
    ensures '"' !in s[i..j]
    ensures j < |s| ==> s[j] == '"'
    decreases |s| - i
  {
    if i < |s| && s[i] != '"' then QuoteEnd(s, i + 1) else i
  }

  /** The operator spelled by two characters. */
  function TwoChar(a: char, b: char): (t: Option<Token>) {
    if a == '=' && b == '=' then Some(TokOp(Eq))
    else if a == '!' && b == '=' then Some(TokOp(Ne))
    else if a == '>' && b == '=' then Some(TokOp(Ge))
    else if a == '<' && b == '=' then Some(TokOp(Le))
    else if a == '&' && b == '&' then Some(TokAnd)
    else if a == '|' && b == '|' then Some(TokOr)
    else None
  }

  /** One step of the tokenizer at `i`: white space (no token), one token, or an error; `next` is where to go on. */
  datatype Lexeme = Lexeme(token: Option<Token>, next: nat)

  function Scan(os: Platform, s: string, i: nat): (r: Result<Lexeme, ParseError>)
    requires i < |s|
    ensures r.Ok? ==> i < r.value.next <= |s|
  {
    var c := s[i];
    if os.isSpace(c) then Ok(Lexeme(None, i + 1))
    else if c == '(' then Ok(Lexeme(Some(TokLParen), i + 1))
    else if c == ')' then Ok(Lexeme(Some(TokRParen), i + 1))
    else if i + 1 < |s| && TwoChar(c, s[i + 1]).Some? then Ok(Lexeme(TwoChar(c, s[i + 1]), i + 2))
    else if c == '>' then Ok(Lexeme(Some(TokOp(Gt)), i + 1))
    else if c == '<' then Ok(Lexeme(Some(TokOp(Lt)), i + 1))
    else if c == '!' then Ok(Lexeme(Some(TokNot), i + 1))
    else if c == '"' then
      var j := QuoteEnd(s, i + 1);
      if j == |s| then Err(UnterminatedString) else Ok(Lexeme(Some(TokStr(s[i + 1..j])), j + 1))
    else if os.IsWordChar(c) then
      var j := WordEnd(os, s, i);
      Ok(Lexeme(Some(Classify(s[i..j])), j))
    else Err(UnexpectedCharacter(c))
  }

  function LexFrom(os: Platform, s: string, i: nat): (r: Result<seq<Token>, ParseError>)
    requires i <= |s|
    decreases |s| - i
  {
    if i == |s| then Ok([])
    else
      match Scan(os, s, i)
      case Err(e) => Err(e)
      case Ok(x) =>
        match LexFrom(os, s, x.next)
        case Err(e) => Err(e)
        case Ok(ts) => Ok((if x.token.Some? then [x.token.value] else []) + ts)
  }

  /** The result of lexing once the tokens `done` have been produced and `rest` says what follows. */
  function After(done: seq<Token>, rest: Result<seq<Token>, ParseError>): (r: Result<seq<Token>, ParseError>) {
    match rest
    case Err(e) => Err(e)
    case Ok(ts) => Ok(done + ts)
  }

  method Tokenize(os: Platform, input: string) returns (r: Result<seq<Token>, ParseError>)
    ensures r == LexFrom(os, input, 0)
  {
    var tokens: seq<Token> := [];
    var i := 0;
    AfterNothing(tokens, LexFrom(os, input, 0));
    while i < |input|
      invariant i <= |input|
      invariant LexFrom(os, input, 0) == After(tokens, LexFrom(os, input, i))
    {
      var step := ScanAt(os, input, i);
      if step.Err? { return Err(step.error); }
      ghost var before := tokens;
      if step.value.token.Some? {
        tokens := tokens + [step.value.token.value];
      }
      StepAdds(os, input, i, before, tokens);
      i := step.value.next;
    }
    AfterNothing(tokens, LexFrom(os, input, 0));
    return Ok(tokens);
  }

  /** The body of the tokenizer's loop: what stands at `start`, and where to go on. */
  method ScanAt(os: Platform, input: string, start: nat) returns (r: Result<Lexeme, ParseError>)
    requires start < |input|
    ensures r == Scan(os, input, start)
  {
    var i, c := start, input[start];
    if os.isSpace(c) { return Ok(Lexeme(None, i + 1)); }
    if c == '(' { return Ok(Lexeme(Some(TokLParen), i + 1)); }
    if c == ')' { return Ok(Lexeme(Some(TokRParen), i + 1)); }
    if i + 1 < |input| {
      var two := TwoChar(c, input[i + 1]);
      if two.Some? { return Ok(Lexeme(two, i + 2)); }
    }
    match c {
      case '>' => return Ok(Lexeme(Some(TokOp(Gt)), i + 1));
      case '<' => return Ok(Lexeme(Some(TokOp(Lt)), i + 1));
      case '!' => return Ok(Lexeme(Some(TokNot), i + 1));
      case _ =>
    }
    if c == '"' {
      i := i + 1;
      while i < |input| && input[i] != '"'
        invariant start + 1 <= i <= |input| && QuoteEnd(input, start + 1) == QuoteEnd(input, i)
      {
        i := i + 1;
      }
      if i >= |input| { return Err(UnterminatedString); }
      return Ok(Lexeme(Some(TokStr(input[start + 1..i])), i + 1));
    }
    if os.IsWordChar(c) {
      while i < |input| && os.IsWordChar(input[i])
        invariant start <= i <= |input| && WordEnd(os, input, start) == WordEnd(os, input, i)
      {
        i := i + 1;
      }
      return Ok(Lexeme(Some(Classify(input[start..i])), i));
    }
    return Err(UnexpectedCharacter(c));
  }

  lemma AfterNothing(ts: seq<Token>, r: Result<seq<Token>, ParseError>)
    ensures After([], r) == r && After(ts, Ok([])) == Ok(ts)
  {
    assert ts + [] == ts;
    if r.Ok? { assert [] + r.value == r.value; }
  }

  lemma StepAdds(os: Platform, s: string, i: nat, before: seq<Token>, after: seq<Token>)
    requires i < |s| && Scan(os, s, i).Ok?
    requires var t := Scan(os, s, i).value.token; after == if t.Some? then before + [t.value] else before
    ensures After(before, LexFrom(os, s, i)) == After(after, LexFrom(os, s, Scan(os, s, i).value.next))
  {
    hide Scan;
    var x := Scan(os, s, i).value;
    var rest := LexFrom(os, s, x.next);
    if rest.Ok? {
      if x.token.Some? {
        assert before + ([x.token.value] + rest.value) == after + rest.value;
      } else {
        assert [] + rest.value == rest.value;
      }
    }
  }

  // ----- Spelling tokens -----

  function FieldName(f: Field): (name: string)
  {
    match f
    case IpSrc => "ip.src"
    case IpDst => "ip.dst"
    case IpAddr => "ip.addr"
    case PortSrc => "port.src"
    case PortDst => "port.dst"
    case Port => "port"
    case Proto => "proto"
    case Len => "len"
    case Info => "info"
    case EthSrc => "eth.src"
    case EthDst => "eth.dst"
    case EthAddr => "eth.addr"
    case VlanId => "vlan.id"
    case TcpFlagSyn => "tcp.flags.syn"
    case TcpFlagAck => "tcp.flags.ack"
    case TcpFlagFin => "tcp.flags.fin"
    case TcpFlagRst => "tcp.flags.rst"
    case TcpFlagPsh => "tcp.flags.psh"
    case TcpFlagUrg => "tcp.flags.urg"
    case PfAction => "pf.action"
    case PfDirection => "pf.direction"
    case PfIfname => "pf.ifname"
    case PfRule => "pf.rule"
    case PfReason => "pf.reason"
    case EncSpi => "enc.spi"
    case EncFlags => "enc.flags"
  }

  /** Every field has one spelling of its own, which the tokenizer reads as that field. */
  lemma FieldNameReads(f: Field)
    ensures Keyword(FieldName(f)) == Some(TokField(f)) && Lower(FieldName(f)) == FieldName(f)
  {
    LowerFieldName(f);
    if f.PfAction? || f.PfDirection? || f.PfIfname? {
      PfNameReads(f);
    } else if f.PfRule? || f.PfReason? || f.EncSpi? || f.EncFlags? {
      LastNameReads(f);
    } else {
      PacketNameReads(f);
    }
  }

  /** Lower-case letters and dots only. */
  predicate IsPlain(name: string) {
    forall i :: 0 <= i < |name| ==> 'a' <= name[i] <= 'z' || name[i] == '.'
  }

  lemma FieldNameIsPlain(f: Field)
    ensures FieldName(f) != [] && IsPlain(FieldName(f))
  {
    if f.IsBoolean() { FlagNameIsPlain(f); } else { ValueNameIsPlain(f); }
  }

  lemma FlagNameIsPlain(f: Field)
    requires f.IsBoolean()
    ensures FieldName(f) != [] && IsPlain(FieldName(f))
  {}

  lemma ValueNameIsPlain(f: Field)
    requires !f.IsBoolean()
    ensures FieldName(f) != [] && IsPlain(FieldName(f))
  {}

  lemma LowerFieldName(f: Field)
    ensures Lower(FieldName(f)) == FieldName(f)
  {
    hide FieldName;
    FieldNameIsPlain(f);
  }

  lemma PacketNameReads(f: Field)
    requires !(f.PfAction? || f.PfDirection? || f.PfIfname? || f.PfRule? || f.PfReason? || f.EncSpi? || f.EncFlags?)
    ensures Keyword(FieldName(f)) == Some(TokField(f))
  {}

  lemma PfNameReads(f: Field)
    requires f.PfAction? || f.PfDirection? || f.PfIfname?
    ensures Keyword(FieldName(f)) == Some(TokField(f))
  {}

  lemma LastNameReads(f: Field)
    requires f.PfRule? || f.PfReason? || f.EncSpi? || f.EncFlags?
    ensures Keyword(FieldName(f)) == Some(TokField(f))
  {}

  lemma FieldNameIsWord(os: Platform, f: Field)
    requires os.Lawful()
    ensures IsWord(os, FieldName(f))
  {
    hide FieldName;
    FieldNameIsPlain(f);
    assert forall c: char :: 'a' <= c <= 'z' || c == '.' ==> os.IsWordChar(c);
  }

  lemma KeywordsStartWithALetter(w: string)
    ensures Keyword(w).Some? ==> w != [] && 'a' <= w[0] <= 'z'
  {}

  /** A non-empty run of word characters. */
  predicate IsWord(os: Platform, w: string) {
    w != [] && forall i :: 0 <= i < |w| ==> os.IsWordChar(w[i])
  }

  predicate IsBareWord(os: Platform, w: string) {
    IsWord(os, w) && Classify(w) == TokStr(w)
  }

  function OpText(op: CompareOp): (s: string) {
    match op
    case Eq => "=="
    case Ne => "!="
    case Gt => ">"
    case Lt => "<"
    case Ge => ">="
    case Le => "<="
  }

  /** A string is written as it is when it would be read back as a plain word, and in quotes otherwise. */
  function TokenText(os: Platform, t: Token): (s: string) {
    match t
    case TokField(f) => FieldName(f)
    case TokOp(op) => OpText(op)
    case TokContains => "contains"
    case TokAnd => "and"
    case TokOr => "or"
    case TokNot => "not"
    case TokLParen => "("
    case TokRParen => ")"
    case TokStr(text) => if IsBareWord(os, text) then text else "\"" + text + "\""
    case TokInt(n) => Numerals.Decimal(n)
  }

  predicate Printable(t: Token) {
    t.TokStr? ==> '"' !in t.text
  }

  predicate AllPrintable(ts: seq<Token>) {
    forall t <- ts :: Printable(t)
  }

  function Spaced(os: Platform, ts: seq<Token>): (s: string) {
    if ts == [] then "" else TokenText(os, ts[0]) + " " + Spaced(os, ts[1..])
  }

  predicate IsWordToken(os: Platform, t: Token) {
    t.TokField? || t.TokContains? || t.TokAnd? || t.TokOr? || t.TokNot? || t.TokInt?
    || (t.TokStr? && IsBareWord(os, t.text))
  }

  lemma WordTokenReads(os: Platform, t: Token)
    requires os.Lawful() && IsWordToken(os, t)
    ensures IsWord(os, TokenText(os, t)) && Classify(TokenText(os, t)) == t
  {
    match t {
      case TokField(f) =>
        FieldNameIsWord(os, f);
        FieldNameReads(f);
      case TokInt(n) => NumberReads(os, n);
      case TokStr(_) =>
      case _ => ConnectiveReads(os, t);
    }
  }

  lemma ConnectiveReads(os: Platform, t: Token)
    requires os.Lawful() && (t.TokContains? || t.TokAnd? || t.TokOr? || t.TokNot?)
    ensures IsWord(os, TokenText(os, t)) && Classify(TokenText(os, t)) == t
  {
    assert Lower(TokenText(os, t)) == TokenText(os, t);
    assert forall c: char :: 'a' <= c <= 'z' ==> os.IsWordChar(c);
  }

  lemma NumberReads(os: Platform, n: u64)
    requires os.Lawful()
    ensures IsWord(os, Numerals.Decimal(n)) && Classify(Numerals.Decimal(n)) == TokInt(n)
  {
    var w := Numerals.Decimal(n);
    assert forall i :: 0 <= i < |w| ==> os.IsWordChar(w[i]);
    KeywordsStartWithALetter(Lower(w));
    assert Lower(w)[0] == w[0];
    Numerals.ParseDecimal(n, MAX_U64);
  }

  lemma {:induction false} WordEndIs(os: Platform, s: string, i: nat, j: nat)
    requires i <= j < |s| && (forall k :: i <= k < j ==> os.IsWordChar(s[k])) && !os.IsWordChar(s[j])
    ensures WordEnd(os, s, i) == j
    decreases j - i
  {
    if i < j { WordEndIs(os, s, i + 1, j); }
  }

  lemma {:induction false} QuoteEndIs(s: string, i: nat, j: nat)
    requires i <= j < |s| && (forall k :: i <= k < j ==> s[k] != '"') && s[j] == '"'
    ensures QuoteEnd(s, i) == j
    decreases j - i
  {
    if i < j { QuoteEndIs(s, i + 1, j); }
  }

  lemma ScanWord(os: Platform, s: string, i: nat, j: nat)
    requires os.Lawful() && i < j < |s| && IsWord(os, s[i..j]) && s[j] == ' '
    ensures Scan(os, s, i) == Ok(Lexeme(Some(Classify(s[i..j])), j))
  {
    forall k | i <= k < j ensures os.IsWordChar(s[k]) { assert s[k] == s[i..j][k - i]; }
    WordEndIs(os, s, i, j);
    assert os.IsWordChar(s[i]);
  }

  lemma ScanSymbol(os: Platform, s: string, i: nat, t: Token)
    requires os.Lawful() && (t.TokOp? || t.TokLParen? || t.TokRParen?)
    requires var w := TokenText(os, t); i + |w| < |s| && s[i..i + |w|] == w && s[i + |w|] == ' '
    ensures Scan(os, s, i) == Ok(Lexeme(Some(t), i + |TokenText(os, t)|))
  {
    hide WordEnd, QuoteEnd, Classify;
    var w := TokenText(os, t);
    assert s[i] == s[i..i + |w|][0] && (|w| == 2 ==> s[i + 1] == s[i..i + |w|][1]);
  }

  lemma ScanQuoted(os: Platform, s: string, i: nat, text: string)
    requires os.Lawful() && '"' !in text
    requires var w := "\"" + text + "\""; i + |w| < |s| && s[i..i + |w|] == w
    ensures Scan(os, s, i) == Ok(Lexeme(Some(TokStr(text)), i + |text| + 2))
  {
    hide WordEnd, Classify;
    var w := "\"" + text + "\"";
    var j := i + |text| + 1;
    forall k | 0 <= k < |w| ensures s[i + k] == w[k] { assert s[i + k] == s[i..i + |w|][k]; }
    assert s[i + 0] == '"' && s[i + (j - i)] == '"';
    forall k | i < k < j ensures s[k] == text[k - i - 1] { assert s[i + (k - i)] == w[k - i]; }
    QuoteEndIs(s, i + 1, j);
    assert s[i + 1..j] == text;
  }

  /** Wherever a token's text stands followed by a blank, the tokenizer reads that token and goes on after it. */
  lemma ScanToken(os: Platform, s: string, i: nat, t: Token)
    requires os.Lawful() && Printable(t)
    requires var w := TokenText(os, t); i + |w| < |s| && s[i..i + |w|] == w && s[i + |w|] == ' '
    ensures TokenText(os, t) != [] && Scan(os, s, i) == Ok(Lexeme(Some(t), i + |TokenText(os, t)|))
  {
    hide Scan, Classify, IsWord, FieldName;
    if IsWordToken(os, t) {
      WordTokenReads(os, t);
      ScanWord(os, s, i, i + |TokenText(os, t)|);
    } else if t.TokStr? {
      ScanQuoted(os, s, i, t.text);
    } else {
      ScanSymbol(os, s, i, t);
    }
  }

  lemma {:induction false} LexSpacedFrom(os: Platform, s: string, i: nat, ts: seq<Token>)
    requires os.Lawful() && AllPrintable(ts)
    requires i <= |s| && s[i..] == Spaced(os, ts)
    ensures LexFrom(os, s, i) == Ok(ts)
    decreases |ts|
  {
    hide *;
    if ts == [] {
      LexNothing(os, s, i);
    } else {
      var j := i + |TokenText(os, ts[0])|;
      SpacedApart(os, s, i, ts);
      ScanToken(os, s, i, ts[0]);
      ScanBlank(os, s, j);
      LexSpacedFrom(os, s, j + 1, ts[1..]);
      LexTwoSteps(os, s, i, j, ts);
    }
  }

  lemma LexNothing(os: Platform, s: string, i: nat)
    requires i <= |s| && s[i..] == Spaced(os, [])
    ensures LexFrom(os, s, i) == Ok([])
  {}

  /** Where the text of spaced tokens stands, the first token, a blank and the others follow each other. */
  lemma SpacedApart(os: Platform, s: string, i: nat, ts: seq<Token>)
    requires i <= |s| && s[i..] == Spaced(os, ts) && ts != []
    ensures var w := TokenText(os, ts[0]); var j := i + |w|;
            j < |s| && s[i..j] == w && s[j] == ' ' && s[j + 1..] == Spaced(os, ts[1..])
    ensures AllPrintable(ts) ==> Printable(ts[0]) && AllPrintable(ts[1..])
  {
    hide TokenText;
    var w, rest := TokenText(os, ts[0]), Spaced(os, ts[1..]);
    var j := i + |w|;
    assert s[i..] == w + " " + rest;
    assert s[i..j] == s[i..][..|w|] == w;
    assert s[j] == s[i..][|w|] == ' ';
    assert s[j + 1..] == s[i..][|w| + 1..] == rest;
  }

  lemma ScanBlank(os: Platform, s: string, j: nat)
    requires os.Lawful() && j < |s| && s[j] == ' '
    ensures Scan(os, s, j) == Ok(Lexeme(None, j + 1))
  {}

  lemma LexTwoSteps(os: Platform, s: string, i: nat, j: nat, ts: seq<Token>)
    requires i < j < |s| && ts != []
    requires Scan(os, s, i) == Ok(Lexeme(Some(ts[0]), j)) && Scan(os, s, j) == Ok(Lexeme(None, j + 1))
    requires LexFrom(os, s, j + 1) == Ok(ts[1..])
    ensures LexFrom(os, s, i) == Ok(ts)
  {
    hide Scan;
    assert [] + ts[1..] == ts[1..] && [ts[0]] + ts[1..] == ts;
    assert LexFrom(os, s, j) == Ok(ts[1..]);
  }

  /** Writing printable tokens apart by blanks and tokenizing the text gives the tokens back. */
  lemma LexSpaced(os: Platform, ts: seq<Token>)
    requires os.Lawful() && AllPrintable(ts)
    ensures LexFrom(os, Spaced(os, ts), 0) == Ok(ts)
  {
    var s := Spaced(os, ts);
    assert s[0..] == s;
    LexSpacedFrom(os, s, 0, ts);
  }

  /** No token of any text contains a quotation mark. */
  lemma {:induction false} LexedArePrintable(os: Platform, s: string, i: nat)
    requires os.Lawful() && i <= |s|
    ensures LexFrom(os, s, i).Ok? ==> AllPrintable(LexFrom(os, s, i).value)
    decreases |s| - i
  {
    if i < |s| && Scan(os, s, i).Ok? {
      ScannedIsPrintable(os, s, i);
      LexedArePrintable(os, s, Scan(os, s, i).value.next);
    }
  }

  lemma ScannedIsPrintable(os: Platform, s: string, i: nat)
    requires os.Lawful() && i < |s| && Scan(os, s, i).Ok?
    ensures var t := Scan(os, s, i).value.token; t.Some? ==> Printable(t.value)
  {
    var t := Scan(os, s, i).value.token;
    if t.Some? && t.value.TokStr? && s[i] != '"' {
      var j := WordEnd(os, s, i);
      assert t.value == Classify(s[i..j]);
      KeywordsAreNotStrings(Lower(s[i..j]));
      assert t.value.text == s[i..j];
      forall k | i <= k < j ensures s[k] != '"' { assert os.IsWordChar(s[k]); }
    }
  }

  lemma KeywordsAreNotStrings(w: string)
    ensures Keyword(w).Some? ==> !Keyword(w).value.TokStr?
  {}
}
