/** All the ways to write a filter: every documented name in any letter case, symbols, numbers in both bases, any gaps. */
module FilterSpelling {
  import opened Prelude
  import opened Numerals
  import opened Reading
  import opened FilterAst
  import opened FilterParser
  import opened FilterLexer
  import opened FilterPrinter

  // ----- What is documented -----

  /** The names of a field. */
  function FieldNames(f: Field): (names: set<string>) {
    match f
    case IpSrc => {"ip.src"}
    case IpDst => {"ip.dst"}
    case IpAddr => {"ip.addr"}
    case PortSrc => {"port.src", "tcp.srcport", "udp.srcport"}
    case PortDst => {"port.dst", "tcp.dstport", "udp.dstport"}
    case Port => {"port"}
    case Proto => {"proto"}
    case Len => {"len", "frame.len"}
    case Info => {"info"}
    case EthSrc => {"eth.src"}
    case EthDst => {"eth.dst"}
    case EthAddr => {"eth.addr"}
    case VlanId => {"vlan.id"}
    case TcpFlagSyn => {"tcp.flags.syn"}
    case TcpFlagAck => {"tcp.flags.ack"}
    case TcpFlagFin => {"tcp.flags.fin"}
    case TcpFlagRst => {"tcp.flags.rst"}
    case TcpFlagPsh => {"tcp.flags.psh"}
    case TcpFlagUrg => {"tcp.flags.urg"}
    case PfAction => {"pf.action"}
    case PfDirection => {"pf.direction", "pf.dir"}
    case PfIfname => {"pf.ifname", "pf.interface"}
    case PfRule => {"pf.rule"}
    case PfReason => {"pf.reason"}
    case EncSpi => {"enc.spi"}
    case EncFlags => {"enc.flags"}
  }

  /** The words for a token, in lower case. */
  function Names(t: Token): (names: set<string>) {
    match t
    case TokAnd => {"and"}
    case TokOr => {"or"}
    case TokNot => {"not"}
    case TokContains => {"contains"}
    case TokField(f) => FieldNames(f)
    case _ => {}
  }

  /** The signs for a token. */
  function Symbols(t: Token): (symbols: set<string>) {
    match t
    case TokAnd => {"&&"}
    case TokOr => {"||"}
    case TokNot => {"!"}
    case TokLParen => {"("}
    case TokRParen => {")"}
    case TokOp(Eq) => {"=="}
    case TokOp(Ne) => {"!="}
    case TokOp(Gt) => {">"}
    case TokOp(Lt) => {"<"}
    case TokOp(Ge) => {">="}
    case TokOp(Le) => {"<="}
    case _ => {}
  }

  /** Decimal digits, or `0x` in either case and hexadecimal digits. */
  ghost predicate Denotes(text: string, n: nat) {
    || (text != "" && AllDigits(text, 10) && Numeral(text, 10) == n)
    || (var lower := Lower(text);
        |lower| > 2 && lower[..2] == "0x" && AllDigits(lower[2..], 16) && Numeral(lower[2..], 16) == n)
  }

  ghost predicate IsName(text: string) {
    exists t :: Lower(text) in Names(t)
  }

  ghost predicate IsNumber(text: string) {
    exists n: u64 :: Denotes(text, n)
  }

  ghost predicate Spells(os: Platform, t: Token, text: string) {
    || Lower(text) in Names(t)
    || text in Symbols(t)
    || (t.TokInt? && Denotes(text, t.number))
    || (t.TokStr? && '"' !in t.text && text == "\"" + t.text + "\"")
    || (t.TokStr? && text == t.text && IsUnquoted(os, text) && !IsName(text) && !IsNumber(text))
  }

  /** Letters and digits of any script, and the four signs that addresses and names need. */
  predicate IsUnquoted(os: Platform, text: string) {
    text != "" && forall c <- text :: os.isAlnum(c) || c in {'_', '.', ':', '/'}
  }

  lemma UnquotedIffWord(os: Platform, text: string)
    ensures IsUnquoted(os, text) <==> IsWord(os, text)
  {}

  const Capitals := "ABCDEFGHIJKLMNOPQRSTUVWXYZ"
  const Smalls := "abcdefghijklmnopqrstuvwxyz"

  /** In lower case each capital is its small letter, and every other character itself. */
  lemma LowerIsLetterByLetter(s: string, i: nat, k: nat)
    requires i < |s| && k < 26
    ensures s[i] == Capitals[k] ==> Lower(s)[i] == Smalls[k]
    ensures s[i] !in Capitals ==> Lower(s)[i] == s[i]
  {
    assert Capitals[k] as int == 'A' as int + k && Smalls[k] as int == 'a' as int + k;
    forall c: char | 'A' <= c <= 'Z' ensures c in Capitals { assert Capitals[c as int - 'A' as int] == c; }
  }

  // ----- Words -----

  lemma ConnectiveNameReads(t: Token, name: string)
    requires !t.TokField? && name in Names(t)
    ensures Keyword(name) == Some(t) && IsPlain(name) && name != ""
  {}

  lemma FieldNameOfReads(f: Field, name: string)
    requires name in FieldNames(f)
    ensures Keyword(name) == Some(TokField(f)) && IsPlain(name) && name != ""
  {
    if name == FieldName(f) {
      FieldNameReads(f);
      FieldNameIsPlain(f);
    } else {
      SecondNameReads(f, name);
    }
  }

  lemma SecondNameReads(f: Field, name: string)
    requires name in FieldNames(f) && name != FieldName(f)
    ensures Keyword(name) == Some(TokField(f)) && IsPlain(name) && name != ""
  {
    if f.PortSrc? || f.PortDst? {
      SecondPortNameReads(f, name);
    } else if f.Len? {
      SecondLengthNameReads(name);
    } else {
      SecondPfNameReads(f, name);
    }
  }

  lemma SecondPortNameReads(f: Field, name: string)
    requires (f.PortSrc? || f.PortDst?) && name in FieldNames(f) && name != FieldName(f)
    ensures Keyword(name) == Some(TokField(f)) && IsPlain(name) && name != ""
  {}

  lemma SecondLengthNameReads(name: string)
    requires name in FieldNames(Len) && name != FieldName(Len)
    ensures Keyword(name) == Some(TokField(Len)) && IsPlain(name) && name != ""
  {}

  lemma SecondPfNameReads(f: Field, name: string)
    requires !f.PortSrc? && !f.PortDst? && !f.Len? && name in FieldNames(f) && name != FieldName(f)
    ensures Keyword(name) == Some(TokField(f)) && IsPlain(name) && name != ""
  {}

  lemma NameReads(t: Token, name: string)
    requires name in Names(t)
    ensures Keyword(name) == Some(t) && IsPlain(name) && name != ""
  {
    hide Keyword, FieldNames;
    if t.TokField? { FieldNameOfReads(t.field, name); } else { ConnectiveNameReads(t, name); }
  }

  lemma KeywordIsName(name: string)
    ensures Keyword(name).Some? ==> name in Names(Keyword(name).value)
  {}

  lemma PlainIsWord(os: Platform, text: string)
    requires os.Lawful() && text != "" && IsPlain(Lower(text))
    ensures IsWord(os, text)
  {
    forall i | 0 <= i < |text| ensures os.IsWordChar(text[i]) {
      assert Lower(text)[i] == LowerChar(text[i]);
    }
  }

  lemma NumberIsWord(os: Platform, text: string, n: nat)
    requires os.Lawful() && Denotes(text, n)
    ensures IsWord(os, text) && IsDigit(text[0]) && Lower(text)[0] == text[0]
  {
    forall i | 0 <= i < |text| ensures os.IsWordChar(text[i]) {
      var lower := Lower(text);
      assert lower[i] == LowerChar(text[i]);
      if !AllDigits(text, 10) {
        if i < 2 { assert lower[i] == lower[..2][i]; } else { assert lower[i] == lower[2..][i - 2]; }
      }
    }
    if !AllDigits(text, 10) { assert Lower(text)[0] == Lower(text)[..2][0] == '0'; }
  }

  lemma NumberReadsBack(text: string, n: u64)
    requires Denotes(text, n) && Keyword(Lower(text)).None?
    ensures Classify(text) == TokInt(n)
  {
    hide Keyword, Numeral;
    var lower := Lower(text);
    if !(text != "" && AllDigits(text, 10) && Numeral(text, 10) == n) {
      assert lower[1] == lower[..2][1] == 'x';
      assert LowerChar(text[1]) == 'x';
      assert lower[0] == lower[..2][0] == '0' && LowerChar(text[0]) == '0';
      assert !AllDigits(text, 10);
      assert IsHexDigit(lower[2..][0]);
    }
  }

  lemma ReadNumberDenotes(os: Platform, text: string)
    requires os.Lawful() && IsWord(os, text)
    ensures var r := ParseUnsigned(text, 10, MAX_U64); r.Some? ==> Denotes(text, r.value)
    ensures var lower := Lower(text);
            |lower| >= 2 && lower[..2] == "0x" ==>
              var r := ParseUnsigned(lower[2..], 16, MAX_U64); r.Some? ==> Denotes(text, r.value)
  {
    hide Numeral;
    var lower := Lower(text);
    assert forall i :: 0 <= i < |text| ==> os.IsWordChar(text[i]) && text[i] != '+' && lower[i] == LowerChar(text[i]);
    if |lower| > 2 { assert lower[2..][0] == lower[2] != '+'; }
  }

  /** A spelled word is read as its token. */
  lemma WordReads(os: Platform, t: Token, text: string)
    requires os.Lawful() && Spells(os, t, text) && text !in Symbols(t) && (t.TokStr? ==> text == t.text)
    ensures IsWord(os, text) && Classify(text) == t
  {
    UnquotedIffWord(os, text);
    hide Names, Symbols, Keyword, Numeral;
    if Lower(text) in Names(t) {
      NameReads(t, Lower(text));
      PlainIsWord(os, text);
    } else if t.TokInt? {
      NumberIsWord(os, text, t.number);
      KeywordsStartWithALetter(Lower(text));
      NumberReadsBack(text, t.number);
    } else {
      PlainWordReads(os, t, text);
    }
  }

  lemma PlainWordReads(os: Platform, t: Token, text: string)
    requires os.Lawful() && t == TokStr(text) && IsWord(os, text) && !IsName(text) && !IsNumber(text)
    ensures Classify(text) == t
  {
    hide Names, Keyword, Numeral, Denotes;
    KeywordIsName(Lower(text));
    ReadNumberDenotes(os, text);
  }

  /** And whatever a word is read as, the word spells. */
  lemma ReadWordSpells(os: Platform, w: string)
    requires os.Lawful() && IsWord(os, w)
    ensures Spells(os, Classify(w), w)
  {
    UnquotedIffWord(os, w);
    hide Names, Symbols, Keyword, Numeral, Denotes;
    KeywordIsName(Lower(w));
    ReadNumberDenotes(os, w);
    if Classify(w).TokStr? && Keyword(Lower(w)).None? {
      if IsName(w) {
        var t :| Lower(w) in Names(t);
        NameReads(t, Lower(w));
      }
      if IsNumber(w) {
        var n: u64 :| Denotes(w, n);
        NumberReadsBack(w, n);
      }
    } else if Classify(w).TokStr? {
      KeywordsAreNotStrings(Lower(w));
    }
  }

  // ----- Whole texts -----

  /** The text ends at `j`, or white space follows. */
  predicate Bounded(os: Platform, s: string, j: nat) {
    j < |s| ==> os.isSpace(s[j])
  }

  lemma BoundedWordReads(os: Platform, s: string, i: nat, text: string)
    requires os.Lawful() && StandsAt(text, s, i) && IsWord(os, text) && Bounded(os, s, i + |text|)
    ensures Scan(os, s, i) == Ok(Lexeme(Some(Classify(text)), i + |text|))
  {
    hide Classify;
    var j := i + |text|;
    forall k | i <= k < j ensures os.IsWordChar(s[k]) { assert s[k] == s[i..j][k - i]; }
    if j < |s| { SpaceIsNoWord(os, s[j]); }
    WordEndsAt(os, s, i, j);
    assert os.IsWordChar(s[i]);
    WordStarts(os, s[i]);
  }

  lemma SpaceIsNoWord(os: Platform, c: char)
    requires os.Lawful() && os.isSpace(c)
    ensures !os.IsWordChar(c) && c != '=' && c != '&' && c != '|' && c != '"'
  {}

  lemma WordStarts(os: Platform, c: char)
    requires os.Lawful() && os.IsWordChar(c)
    ensures !os.isSpace(c) && c != '(' && c != ')' && c != '>' && c != '<' && c != '!' && c != '"'
    ensures forall d :: TwoChar(c, d).None?
  {}

  lemma {:induction false} WordEndsAt(os: Platform, s: string, i: nat, j: nat)
    requires i <= j <= |s| && (forall k :: i <= k < j ==> os.IsWordChar(s[k])) && (j < |s| ==> !os.IsWordChar(s[j]))
    ensures WordEnd(os, s, i) == j
    decreases j - i
  {
    if i < j { WordEndsAt(os, s, i + 1, j); }
  }

  lemma BoundedSymbolReads(os: Platform, s: string, i: nat, t: Token, text: string)
    requires os.Lawful() && StandsAt(text, s, i) && text in Symbols(t) && Bounded(os, s, i + |text|)
    ensures text != "" && Scan(os, s, i) == Ok(Lexeme(Some(t), i + |text|))
  {
    StandsElement(text, s, i, 0);
    if |text| == 2 { StandsElement(text, s, i, 1); }
    if i + |text| < |s| { SpaceIsNoWord(os, s[i + |text|]); }
    hide StandsAt;
  }

  lemma QuotedTextReads(os: Platform, s: string, i: nat, text: string)
    requires os.Lawful() && '"' !in text && StandsAt("\"" + text + "\"", s, i)
    ensures Scan(os, s, i) == Ok(Lexeme(Some(TokStr(text)), i + |text| + 2))
  {
    hide StandsAt;
    var j := i + |text| + 1;
    Regroup("\"", text, "\"");
    assert [] + (['"'] + (text + "\"")) == "\"" + text + "\"";
    StandsAround([], '"', text + "\"", s, i);
    StandsApart(text, "\"", s, i + 1);
    StandsElement("\"", s, j, 0);
    StandsSlice(text, s, i + 1);
    QuoteIsAt(s, i + 1, j);
    QuoteStarts(os);
  }

  lemma StandsSlice(w: string, s: string, i: nat)
    requires StandsAt(w, s, i)
    ensures i + |w| <= |s| && s[i..i + |w|] == w
  {}

  lemma QuoteIsAt(s: string, i: nat, j: nat)
    requires i <= j < |s| && '"' !in s[i..j] && s[j] == '"'
    ensures QuoteEnd(s, i) == j
  {
    assert forall k :: i <= k < j ==> s[k] == s[i..j][k - i];
    QuoteEndIs(s, i, j);
  }

  lemma QuoteStarts(os: Platform)
    requires os.Lawful()
    ensures !os.isSpace('"') && forall d :: TwoChar('"', d).None?
  {}

  /** Wherever a spelling of a token stands before white space or the end, that token is read. */
  lemma SpellingReads(os: Platform, s: string, i: nat, t: Token, text: string)
    requires os.Lawful() && Spells(os, t, text) && StandsAt(text, s, i) && Bounded(os, s, i + |text|)
    ensures text != "" && i < |s| && Scan(os, s, i) == Ok(Lexeme(Some(t), i + |text|))
  {
    hide Names, Symbols, Scan, IsNumber, IsName, Denotes, Classify;
    if text in Symbols(t) {
      BoundedSymbolReads(os, s, i, t, text);
    } else if t.TokStr? && text != t.text {
      NothingNamesStrings(t, text);
      QuotedTextReads(os, s, i, t.text);
    } else {
      WordReads(os, t, text);
      BoundedWordReads(os, s, i, text);
    }
    StandsWithin(text, s, i);
  }

  lemma NothingNamesStrings(t: Token, text: string)
    requires t.TokStr?
    ensures text !in Names(t) && text !in Symbols(t) && Lower(text) !in Names(t)
  {}

  lemma {:induction false} GapSkips(os: Platform, s: string, i: nat, j: nat)
    requires os.Lawful() && i <= j <= |s| && forall k :: i <= k < j ==> os.isSpace(s[k])
    ensures LexFrom(os, s, i) == LexFrom(os, s, j)
    decreases j - i
  {
    hide LexFrom;
    if i < j {
      GapSkips(os, s, i + 1, j);
      SpaceSkips(os, s, i);
    }
  }

  lemma SpaceSkips(os: Platform, s: string, i: nat)
    requires os.Lawful() && i < |s| && os.isSpace(s[i])
    ensures LexFrom(os, s, i) == LexFrom(os, s, i + 1)
  {
    var rest := LexFrom(os, s, i + 1);
    if rest.Ok? { assert [] + rest.value == rest.value; }
  }

  predicate IsGap(os: Platform, gap: string) {
    forall i :: 0 <= i < |gap| ==> os.isSpace(gap[i])
  }

  /** The texts one after the other, each followed by its gap. */
  function Written(texts: seq<string>, gaps: seq<string>): (s: string)
    requires |texts| == |gaps|
  {
    if texts == [] then "" else texts[0] + (gaps[0] + Written(texts[1..], gaps[1..]))
  }

  /** Each text spells its token, and the gaps are white space, only the last of them possibly empty. */
  ghost predicate Spelling(os: Platform, ts: seq<Token>, texts: seq<string>, gaps: seq<string>) {
    && |ts| == |texts| == |gaps|
    && (forall i :: 0 <= i < |ts| ==> Spells(os, ts[i], texts[i]) && IsGap(os, gaps[i]))
    && (forall i :: 0 <= i < |ts| - 1 ==> gaps[i] != "")
  }

  lemma SpellingRest(os: Platform, ts: seq<Token>, texts: seq<string>, gaps: seq<string>)
    requires Spelling(os, ts, texts, gaps) && ts != []
    ensures |ts| == |texts| == |gaps| && Spells(os, ts[0], texts[0]) && IsGap(os, gaps[0])
    ensures Spelling(os, ts[1..], texts[1..], gaps[1..]) && (gaps[0] == "" ==> |ts| == 1)
  {
    hide Spells, IsGap;
  }

  lemma ThreeStand(a: string, b: string, c: string, s: string, i: nat)
    requires StandsAt(a + (b + c), s, i)
    ensures StandsAt(a, s, i) && StandsAt(b, s, i + |a|) && StandsAt(c, s, i + |a| + |b|)
    ensures |a + (b + c)| == |a| + |b| + |c|
  {
    hide StandsAt;
    StandsApart(a, b + c, s, i);
    StandsApart(b, c, s, i + |a|);
  }

  lemma WrittenStands(s: string, i: nat, texts: seq<string>, gaps: seq<string>)
    requires |texts| == |gaps| > 0 && StandsAt(Written(texts, gaps), s, i)
    ensures var j := i + |texts[0]|; var k := j + |gaps[0]|;
            && StandsAt(texts[0], s, i) && StandsAt(gaps[0], s, j) && StandsAt(Written(texts[1..], gaps[1..]), s, k)
            && |Written(texts, gaps)| == |texts[0]| + |gaps[0]| + |Written(texts[1..], gaps[1..])|
  {
    hide StandsAt;
    ghost var first, gap, rest := texts[0], gaps[0], Written(texts[1..], gaps[1..]);
    assert Written(texts, gaps) == first + (gap + rest);
    hide Written;
    ThreeStand(first, gap, rest, s, i);
  }

  lemma GapBounds(os: Platform, s: string, j: nat, gap: string)
    requires StandsAt(gap, s, j) && IsGap(os, gap)
    ensures forall n :: j <= n < j + |gap| ==> n < |s| && os.isSpace(s[n])
    ensures gap != "" ==> Bounded(os, s, j)
  {
    forall n | j <= n < j + |gap| ensures n < |s| && os.isSpace(s[n]) { StandsElement(gap, s, j, n - j); }
  }

  lemma {:induction false} SpelledTextReads(os: Platform, s: string, i: nat, ts: seq<Token>, texts: seq<string>, gaps: seq<string>)
    requires os.Lawful() && Spelling(os, ts, texts, gaps)
    requires StandsAt(Written(texts, gaps), s, i) && i + |Written(texts, gaps)| == |s|
    ensures LexFrom(os, s, i) == Ok(ts)
    decreases |ts|
  {
    hide Spells, Scan, IsGap, Spelling, StandsAt;
    if ts == [] {
      NothingSpelled(os, texts, gaps);
    } else {
      SpellingRest(os, ts, texts, gaps);
      WrittenStands(s, i, texts, gaps);
      hide Written, LexFrom;
      var j := i + |texts[0]|;
      var k := j + |gaps[0]|;
      GapBounds(os, s, j, gaps[0]);
      if gaps[0] == "" { NothingWritten(texts[1..], gaps[1..]); }
      SpellingReads(os, s, i, ts[0], texts[0]);
      GapSkips(os, s, j, k);
      SpelledTextReads(os, s, k, ts[1..], texts[1..], gaps[1..]);
      OneTokenOn(os, s, i, j, ts);
    }
  }

  lemma NothingSpelled(os: Platform, texts: seq<string>, gaps: seq<string>)
    requires Spelling(os, [], texts, gaps)
    ensures texts == [] && gaps == []
  {}

  lemma NothingWritten(texts: seq<string>, gaps: seq<string>)
    requires |texts| == |gaps| == 0
    ensures Written(texts, gaps) == ""
  {}

  lemma OneTokenOn(os: Platform, s: string, i: nat, j: nat, ts: seq<Token>)
    requires i < j <= |s| && ts != []
    requires Scan(os, s, i) == Ok(Lexeme(Some(ts[0]), j)) && LexFrom(os, s, j) == Ok(ts[1..])
    ensures LexFrom(os, s, i) == Ok(ts)
  {
    hide Scan;
    assert [ts[0]] + ts[1..] == ts;
  }

  /** However a token list is spelled, with whatever gaps, the tokenizer reads that list. */
  lemma EverySpellingIsRead(os: Platform, lead: string, ts: seq<Token>, texts: seq<string>, gaps: seq<string>)
    requires os.Lawful() && IsGap(os, lead) && |texts| == |gaps| && Spelling(os, ts, texts, gaps)
    ensures LexFrom(os, lead + Written(texts, gaps), 0) == Ok(ts)
  {
    hide Spelling, LexFrom, Written;
    var s := lead + Written(texts, gaps);
    StandsWhole(s);
    StandsApart(lead, Written(texts, gaps), s, 0);
    GapBounds(os, s, 0, lead);
    GapSkips(os, s, 0, |lead|);
    SpelledTextReads(os, s, |lead|, ts, texts, gaps);
  }

  /**
   * However the printed tokens of an expressible filter are spelled (names in any letter case, second names, symbols,
   * either base, quoted or plain strings), and with whatever gaps, the parser reads exactly that filter.
   */
  lemma EverySpellingParses(os: Platform, e: Expr, lead: string, texts: seq<string>, gaps: seq<string>)
    requires os.Lawful() && Proper(os, e) && IsGap(os, lead)
    requires |texts| == |gaps| && Spelling(os, Show(os, e, Anywhere), texts, gaps)
    ensures ParseText(os, lead + Written(texts, gaps)) == Ok(e)
  {
    var ts := Show(os, e, Anywhere);
    EverySpellingIsRead(os, lead, ts, texts, gaps);
    hide Spelling, Proper, Show, Written, LexFrom, ParseTokens;
    PrintedTokensParse(os, e);
  }

  lemma PrintedTokensParse(os: Platform, e: Expr)
    requires os.Lawful() && Proper(os, e)
    ensures ParseTokens(os, Show(os, e, Anywhere)) == Ok(e)
  {
    hide Proper, Show, ParseTokens;
    var ts := Show(os, e, Anywhere);
    assert ts[0..|ts|] == ts;
    ShowDerives(os, e, Anywhere, ts, 0, |ts|);
    ParsesExactlyTheGrammar(os, ts, e);
  }

  // ----- Nothing else is read -----

  /** `s` from `i` on is white space and spellings of the tokens. */
  ghost predicate Reads(os: Platform, s: string, i: nat, ts: seq<Token>)
    requires i <= |s|
    decreases |s| - i
  {
    || (i == |s| && ts == [])
    || (i < |s| && os.isSpace(s[i]) && Reads(os, s, i + 1, ts))
    || (ts != [] && exists j :: i < j <= |s| && Spells(os, ts[0], s[i..j]) && Reads(os, s, j, ts[1..]))
  }

  /** Each token that is read is spelled by the text it is read from. */
  lemma ReadTokenIsSpelled(os: Platform, s: string, i: nat)
    requires os.Lawful() && i < |s| && Scan(os, s, i).Ok?
    ensures var x := Scan(os, s, i).value;
            if x.token.None? then os.isSpace(s[i]) && x.next == i + 1 else Spells(os, x.token.value, s[i..x.next])
  {
    hide Names, Denotes, IsName, IsNumber, Classify;
    var c := s[i];
    if os.isSpace(c) {
    } else if c == '"' {
      ReadQuoteIsSpelled(os, s, i);
    } else if os.IsWordChar(c) {
      WordStarts(os, c);
      var j := WordEnd(os, s, i);
      forall k | 0 <= k < j - i ensures os.IsWordChar(s[i..j][k]) { assert s[i..j][k] == s[i + k]; }
      ReadWordSpells(os, s[i..j]);
    } else {
      ReadSymbolIsSpelled(os, s, i);
    }
  }

  lemma ReadQuoteIsSpelled(os: Platform, s: string, i: nat)
    requires os.Lawful() && i < |s| && s[i] == '"' && Scan(os, s, i).Ok?
    ensures var x := Scan(os, s, i).value; x.token.Some? && Spells(os, x.token.value, s[i..x.next])
  {
    hide Names, Denotes, IsName, IsNumber, IsWord;
    var j := QuoteEnd(s, i + 1);
    assert j < |s|;
    assert s[i..j + 1] == "\"" + s[i + 1..j] + "\"";
  }

  lemma ReadSymbolIsSpelled(os: Platform, s: string, i: nat)
    requires os.Lawful() && i < |s| && Scan(os, s, i).Ok?
    requires !os.isSpace(s[i]) && s[i] != '"' && !os.IsWordChar(s[i])
    ensures var x := Scan(os, s, i).value; x.token.Some? && Spells(os, x.token.value, s[i..x.next])
  {
    hide Names, Denotes, IsName, IsNumber, IsWord;
    var x := Scan(os, s, i).value;
    if x.next == i + 1 { assert s[i..i + 1] == [s[i]]; } else { assert s[i..i + 2] == [s[i], s[i + 1]]; }
    assert s[i..x.next] in Symbols(x.token.value);
  }

  /** Whatever is tokenized is a sequence of spellings of its tokens, with white space between some of them. */
  lemma {:induction false} OnlySpellingsAreRead(os: Platform, s: string, i: nat)
    requires os.Lawful() && i <= |s|
    ensures LexFrom(os, s, i).Ok? ==> Reads(os, s, i, LexFrom(os, s, i).value)
    decreases |s| - i
  {
    hide Spells, Scan;
    if i < |s| && Scan(os, s, i).Ok? && LexFrom(os, s, i).Ok? {
      var x := Scan(os, s, i).value;
      OnlySpellingsAreRead(os, s, x.next);
      ReadTokenIsSpelled(os, s, i);
      var ts, rest := LexFrom(os, s, i).value, LexFrom(os, s, x.next).value;
      if x.token.None? {
        assert ts == [] + rest == rest;
      } else {
        assert ts == [x.token.value] + rest;
        assert ts[1..] == rest;
      }
    }
  }
}
