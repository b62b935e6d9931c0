/** The JSON lines of the command-line tool, and a reader of RFC 8259 that recovers their members. */
module JsonLine {
  import opened Prelude
  import opened Numerals
  import opened Reading
  import opened FilterEval
  import opened Csv

  function EscapeChar(c: char): (s: string) {
    if c == '"' then "\\\""
    else if c == '\\' then "\\\\"
    else if c == '\n' then "\\n"
    else if c == '\r' then "\\r"
    else if c == '\t' then "\\t"
    else if c < ' ' then "\\u" + Hex(c as int, 4)
    else [c]
  }

  /** `escape_json`, as the text its characters are replaced by. */
  function EscapedText(s: string): (r: string) {
    if s == "" then "" else EscapeChar(s[0]) + EscapedText(s[1..])
  }

  method EscapeJson(s: string) returns (out: string)
    ensures out == EscapedText(s)
  {
    hide EscapedText, Hex;
    out := "";
    assert s[0..] == s;
    for i := 0 to |s|
      invariant out + EscapedText(s[i..]) == EscapedText(s)
    {
      ghost var rest := EscapedText(s[i + 1..]);
      EscapedFrom(s, i);
      var piece: string;
      match s[i] {
        case '"' => piece := "\\\"";
        case '\\' => piece := "\\\\";
        case '\n' => piece := "\\n";
        case '\r' => piece := "\\r";
        case '\t' => piece := "\\t";
        case c => piece := if c < ' ' then "\\u" + Hex(c as int, 4) else [c];
      }
      assert piece == EscapeChar(s[i]);
      assert out + (piece + rest) == (out + piece) + rest;
      out := out + piece;
    }
    EscapedFrom(s, |s|);
    assert out + "" == out;
  }

  lemma EscapedFrom(s: string, i: nat)
    requires i <= |s|
    ensures EscapedText(s[i..]) == if i == |s| then "" else EscapeChar(s[i]) + EscapedText(s[i + 1..])
  {
    hide EscapeChar;
    assert i < |s| ==> s[i..][1..] == s[i + 1..];
  }

  // ----- A reader of strings, RFC 8259, section 7 -----

  /** Four hexadecimal digits. */
  function ReadHex4(s: string, i: nat): (v: Option<nat>)
    ensures v.Some? ==> i + 4 <= |s| && v.value < 0x1_0000
  {
    if i + 4 <= |s| && IsHexDigit(s[i]) && IsHexDigit(s[i + 1]) && IsHexDigit(s[i + 2]) && IsHexDigit(s[i + 3]) then
      Some(0x1000 * DigitValue(s[i]) + 0x100 * DigitValue(s[i + 1]) + 0x10 * DigitValue(s[i + 2]) + DigitValue(s[i + 3]))
    else None
  }

  /** An escape behind its backslash; two escaped surrogates make one character, and one alone makes none. */
  function ReadEscape(s: string, i: nat): (r: Option<Read<char>>)
    requires i <= |s|
    ensures r.Some? ==> i < r.value.next <= |s|
  {
    if i == |s| then None
    else
      match s[i]
      case '"' => Some(Read('"', i + 1))
      case '\\' => Some(Read('\\', i + 1))
      case '/' => Some(Read('/', i + 1))
      case 'b' => Some(Read(8 as char, i + 1))
      case 'f' => Some(Read(12 as char, i + 1))
      case 'n' => Some(Read('\n', i + 1))
      case 'r' => Some(Read('\r', i + 1))
      case 't' => Some(Read('\t', i + 1))
      case 'u' =>
        (match ReadHex4(s, i + 1)
         case None => None
         case Some(v) =>
           if v < 0xD800 || v >= 0xE000 then Some(Read(v as char, i + 5))
           else if v < 0xDC00 && i + 7 <= |s| && s[i + 5] == '\\' && s[i + 6] == 'u' then
             match ReadHex4(s, i + 7)
             case None => None
             case Some(w) =>
               if 0xDC00 <= w < 0xE000 then
                 Some(Read((0x1_0000 + 0x400 * (v - 0xD800) + (w - 0xDC00)) as char, i + 11))
               else None
           else None)
      case _ => None
  }

  /** The characters of a string behind its opening quotation mark; raw control characters are not allowed. */
  function ReadChars(s: string, i: nat): (r: Option<Read<string>>)
    requires i <= |s|
    ensures r.Some? ==> i < r.value.next <= |s|
    decreases |s| - i
  {
    if i == |s| || s[i] < ' ' then None
    else if s[i] == '"' then Some(Read("", i + 1))
    else
      var first := if s[i] == '\\' then ReadEscape(s, i + 1) else Some(Read(s[i], i + 1));
      match first
      case None => None
      case Some(c) =>
        match ReadChars(s, c.next)
        case None => None
        case Some(rest) => Some(Read([c.value] + rest.value, rest.next))
  }

  // ----- Reading inverts escaping -----

  lemma HexReads(n: nat, s: string, i: nat)
    requires n < 32 && StandsAt(Hex(n, 4), s, i)
    ensures ReadHex4(s, i) == Some(n)
  {
    hide Hex, HexChar, IsHexDigit, DigitValue;
    HexOfControl(n);
    assert s[i..i + 4] == [HexChar(0), HexChar(0), HexChar(n / 16), HexChar(n % 16)];
    assert s[i] == s[i..i + 4][0] && s[i + 1] == s[i..i + 4][1] && s[i + 2] == s[i..i + 4][2] && s[i + 3] == s[i..i + 4][3];
    HexDigitReads(0);
    HexDigitReads(n / 16);
    HexDigitReads(n % 16);
  }

  lemma HexOfControl(n: nat)
    requires n < 32
    ensures Hex(n, 4) == [HexChar(0), HexChar(0), HexChar(n / 16), HexChar(n % 16)]
  {
    hide HexChar;
    assert Hex(0, 2) == [HexChar(0), HexChar(0)] by { assert Hex(0, 1) == [HexChar(0)]; }
    assert n / 16 / 16 == 0 && n / 16 % 16 == n / 16;
    assert Hex(n / 16, 3) == Hex(0, 2) + [HexChar(n / 16)];
  }

  lemma HexDigitReads(d: nat)
    requires d < 16
    ensures IsHexDigit(HexChar(d)) && DigitValue(HexChar(d)) == d
  {}

  /** One escaped character is read as the character. */
  lemma EscapedCharReads(c: char, s: string, i: nat)
    requires StandsAt(EscapeChar(c), s, i)
    ensures i < |s| && s[i] >= ' ' && s[i] != '"'
    ensures (if s[i] == '\\' then ReadEscape(s, i + 1) else Some(Read(s[i], i + 1)))
            == Some(Read(c, i + |EscapeChar(c)|))
  {
    var e := EscapeChar(c);
    assert s[i] == s[i..i + |e|][0] && (|e| > 1 ==> s[i + 1] == s[i..i + |e|][1]);
    if c < ' ' && c != '\n' && c != '\r' && c != '\t' {
      StandsApart("\\u", Hex(c as int, 4), s, i);
      HexReads(c as int, s, i + 2);
    }
  }

  lemma {:induction false} EscapedReads(f: string, s: string, i: nat)
    requires StandsAt(EscapedText(f) + "\"", s, i)
    ensures ReadChars(s, i) == Some(Read(f, i + |EscapedText(f)| + 1))
    decreases |f|
  {
    hide ReadEscape, EscapeChar;
    if f == "" {
      StandsApart("\"", "", s, i);
    } else {
      var e, rest := EscapeChar(f[0]), EscapedText(f[1..]);
      assert EscapedText(f) + "\"" == e + (rest + "\"");
      StandsApart(e, rest + "\"", s, i);
      EscapedCharReads(f[0], s, i);
      EscapedReads(f[1..], s, i + |e|);
      assert [f[0]] + f[1..] == f;
    }
  }

  lemma EscapeIsPrintable(c: char, i: nat)
    requires i < |EscapeChar(c)|
    ensures EscapeChar(c)[i] >= ' '
  {
    if c < ' ' && c != '\n' && c != '\r' && c != '\t' {
      hide Hex;
      HexOfControl(c as int);
      HexDigitReads(0);
      HexDigitReads(c as int / 16);
      HexDigitReads(c as int % 16);
    }
  }

  /** An escaped text has no control character. */
  lemma {:induction false} NoRawControl(s: string, i: nat)
    requires i < |EscapedText(s)|
    ensures EscapedText(s)[i] >= ' '
  {
    hide EscapeChar;
    var e := EscapeChar(s[0]);
    if i < |e| {
      EscapeIsPrintable(s[0], i);
    } else {
      NoRawControl(s[1..], i - |e|);
    }
  }

  // ----- Lines -----

  /** A member's value: a string, or a number as it is written. */
  datatype Value = Text(text: string) | Number(numeral: string)

  datatype Member = Member(name: string, value: Value)

  function ValueText(v: Value): (s: string) {
    match v
    case Text(t) => "\"" + EscapedText(t) + "\""
    case Number(n) => n
  }

  function MemberText(m: Member): (s: string) {
    "\"" + m.name + "\":" + ValueText(m.value)
  }

  function Joined(ms: seq<Member>): (s: string) {
    if ms == [] then "" else if |ms| == 1 then MemberText(ms[0]) else MemberText(ms[0]) + "," + Joined(ms[1..])
  }

  function ObjectText(ms: seq<Member>): (s: string) {
    "{" + Joined(ms) + "}"
  }

  function FixedMembers(fmt: TimeFormat, p: Packet): (ms: seq<Member>) {
    [Member("no", Number(Decimal(p.index + 1))), Member("time", Number(fmt.seconds(p.timestamp))),
     Member("src", Text(p.source)), Member("dst", Text(p.destination)), Member("proto", Text(p.protocol.display)),
     Member("len", Number(Decimal(p.originalLength))), Member("info", Text(p.info))]
  }

  function Optional(name: string, text: Option<string>): (ms: seq<Member>) {
    if text.Some? then [Member(name, Text(text.value))] else []
  }

  /** What a line says of a packet. */
  function LineMembers(fmt: TimeFormat, p: Packet, process: Option<string>, path: Option<string>): (ms: seq<Member>) {
    FixedMembers(fmt, p) + Optional("process", process) + Optional("path", path)
  }

  lemma {:induction false} JoinedAppend(ms: seq<Member>, m: Member)
    requires ms != []
    ensures Joined(ms + [m]) == Joined(ms) + ("," + MemberText(m))
  {
    hide MemberText;
    if |ms| == 1 {
      assert ms + [m] == [ms[0], m];
      assert [ms[0], m][1..] == [m];
      assert MemberText(ms[0]) + "," + MemberText(m) == MemberText(ms[0]) + ("," + MemberText(m));
    } else {
      assert (ms + [m])[1..] == ms[1..] + [m];
      JoinedAppend(ms[1..], m);
      var a, b, c := MemberText(ms[0]) + ",", Joined(ms[1..]), "," + MemberText(m);
      assert a + (b + c) == (a + b) + c;
    }
  }

  /** Appends a member to the object that `out` has begun behind `start`. */
  method AppendMember(out: Output, ghost start: string, ghost ms: seq<Member>, m: Member)
    returns (ghost now: seq<Member>)
    requires ms != [] && out.text == start + ("{" + Joined(ms))
    modifies out
    ensures now == ms + [m] && out.text == start + ("{" + Joined(now))
  {
    hide Joined, MemberText, EscapedText;
    match m.value {
      case Number(n) => out.Write(",\"" + m.name + "\":" + n);
      case Text(t) =>
        var escaped := EscapeJson(t);
        out.Write(",\"" + m.name + "\":\"" + escaped + "\"");
    }
    CommaMember(m);
    JoinedAppend(ms, m);
    var a, b := "{" + Joined(ms), "," + MemberText(m);
    assert out.text == (start + a) + b == start + (a + b);
    assert a + b == "{" + Joined(ms + [m]);
    now := ms + [m];
  }

  lemma CommaMember(m: Member)
    ensures m.value.Number? ==> ",\"" + m.name + "\":" + m.value.numeral == "," + MemberText(m)
    ensures m.value.Text? ==> ",\"" + m.name + "\":\"" + EscapedText(m.value.text) + "\"" == "," + MemberText(m)
  {
    hide EscapedText;
  }

  /** `write_json`. */
  method WriteJson(out: Output, fmt: TimeFormat, p: Packet, process: Option<string>, path: Option<string>)
    modifies out
    ensures out.text == old(out.text) + (ObjectText(LineMembers(fmt, p, process, path)) + "\n")
  {
    hide Joined, MemberText, EscapedText;
    ghost var start := out.text;
    ghost var ms := [Member("no", Number(Decimal(p.index + 1)))];
    out.Write("{\"no\":" + Decimal(p.index + 1));
    FirstMember(Decimal(p.index + 1));
    ms := AppendMember(out, start, ms, Member("time", Number(fmt.seconds(p.timestamp))));
    ms := AppendMember(out, start, ms, Member("src", Text(p.source)));
    ms := AppendMember(out, start, ms, Member("dst", Text(p.destination)));
    ms := AppendMember(out, start, ms, Member("proto", Text(p.protocol.display)));
    ms := AppendMember(out, start, ms, Member("len", Number(Decimal(p.originalLength))));
    ms := AppendMember(out, start, ms, Member("info", Text(p.info)));
    assert ms == FixedMembers(fmt, p);
    if process.Some? { ms := AppendMember(out, start, ms, Member("process", Text(process.value))); }
    assert ms == FixedMembers(fmt, p) + Optional("process", process);
    if path.Some? { ms := AppendMember(out, start, ms, Member("path", Text(path.value))); }
    assert ms == LineMembers(fmt, p, process, path);
    out.Write("}\n");
    assert out.text == start + (ObjectText(ms) + "\n");
  }

  lemma FirstMember(numeral: string)
    ensures "{\"no\":" + numeral == "{" + Joined([Member("no", Number(numeral))])
  {}

  // ----- A reader of objects, RFC 8259, section 4, without white space -----

  function ReadNumber(s: string, i: nat): (r: Read<string>)
    requires i <= |s|
    ensures i <= r.next <= |s|
    decreases |s| - i
  {
    if i == |s| || !IsNumeralChar(s[i]) then Read("", i)
    else
      var rest := ReadNumber(s, i + 1);
      Read([s[i]] + rest.value, rest.next)
  }

  function ReadValue(s: string, i: nat): (r: Option<Read<Value>>)
    requires i <= |s|
    ensures r.Some? ==> i < r.value.next <= |s|
  {
    if i < |s| && s[i] == '"' then
      match ReadChars(s, i + 1)
      case None => None
      case Some(t) => Some(Read(Text(t.value), t.next))
    else
      var n := ReadNumber(s, i);
      if n.next == i then None else Some(Read(Number(n.value), n.next))
  }

  function ReadMember(s: string, i: nat): (r: Option<Read<Member>>)
    requires i <= |s|
    ensures r.Some? ==> i < r.value.next <= |s|
  {
    if i == |s| || s[i] != '"' then None
    else
      match ReadChars(s, i + 1)
      case None => None
      case Some(name) =>
        if name.next == |s| || s[name.next] != ':' then None
        else
          match ReadValue(s, name.next + 1)
          case None => None
          case Some(v) => Some(Read(Member(name.value, v.value), v.next))
  }

  /** The members up to the closing brace, and the position behind it. */
  function ReadMembers(s: string, i: nat): (r: Option<Read<seq<Member>>>)
    requires i <= |s|
    ensures r.Some? ==> i < r.value.next <= |s|
    decreases |s| - i
  {
    match ReadMember(s, i)
    case None => None
    case Some(m) =>
      if m.next == |s| then None
      else if s[m.next] == '}' then Some(Read([m.value], m.next + 1))
      else if s[m.next] == ',' then
        match ReadMembers(s, m.next + 1)
        case None => None
        case Some(rest) => Some(Read([m.value] + rest.value, rest.next))
      else None
  }

  function ReadObject(s: string, i: nat): (r: Option<Read<seq<Member>>>)
    requires i <= |s|
  {
    if i == |s| || s[i] != '{' then None
    else if i + 1 < |s| && s[i + 1] == '}' then Some(Read([], i + 2))
    else ReadMembers(s, i + 1)
  }

  /** The name needs no escapes, and a number is a numeral. */
  predicate IsProper(m: Member) {
    && (forall i :: 0 <= i < |m.name| ==> EscapeChar(m.name[i]) == [m.name[i]])
    && (m.value.Number? ==> IsNumeral(m.value.numeral))
  }

  predicate AllProper(ms: seq<Member>) {
    forall i :: 0 <= i < |ms| ==> IsProper(ms[i])
  }

  lemma {:induction false} UnescapedName(name: string)
    requires forall i :: 0 <= i < |name| ==> EscapeChar(name[i]) == [name[i]]
    ensures EscapedText(name) == name
  {
    if name != "" {
      UnescapedName(name[1..]);
      assert [name[0]] + name[1..] == name;
    }
  }

  lemma {:induction false} NumberReads(n: string, s: string, i: nat)
    requires (forall k :: 0 <= k < |n| ==> IsNumeralChar(n[k])) && StandsAt(n, s, i)
    requires i + |n| < |s| && !IsNumeralChar(s[i + |n|])
    ensures ReadNumber(s, i) == Read(n, i + |n|)
    decreases |n|
  {
    if n != "" {
      assert n == [n[0]] + n[1..];
      StandsApart([n[0]], n[1..], s, i);
      NumberReads(n[1..], s, i + 1);
    }
  }

  lemma ValueReads(v: Value, s: string, i: nat)
    requires v.Number? ==> IsNumeral(v.numeral)
    requires StandsAt(ValueText(v), s, i)
    requires i + |ValueText(v)| < |s| && !IsNumeralChar(s[i + |ValueText(v)|])
    ensures ReadValue(s, i) == Some(Read(v, i + |ValueText(v)|))
  {
    match v {
      case Text(t) => TextReads(t, s, i);
      case Number(n) => NumeralReads(n, s, i);
    }
  }

  lemma TextReads(t: string, s: string, i: nat)
    requires StandsAt(ValueText(Text(t)), s, i)
    ensures ReadValue(s, i) == Some(Read(Text(t), i + |ValueText(Text(t))|))
  {
    hide ReadChars, EscapedText, StandsAt;
    Regroup("\"", EscapedText(t), "\"");
    StandsApart("\"", EscapedText(t) + "\"", s, i);
    StandsElement("\"", s, i, 0);
    EscapedReads(t, s, i + 1);
  }

  lemma NumeralReads(n: string, s: string, i: nat)
    requires IsNumeral(n) && StandsAt(n, s, i)
    requires i + |n| < |s| && !IsNumeralChar(s[i + |n|])
    ensures ReadValue(s, i) == Some(Read(Number(n), i + |n|))
  {
    hide ReadNumber, StandsAt;
    StandsElement(n, s, i, 0);
    NumberReads(n, s, i);
  }

  lemma OneMemberReads(m: Member, s: string, i: nat)
    requires IsProper(m) && StandsAt(MemberText(m), s, i)
    requires i + |MemberText(m)| < |s| && !IsNumeralChar(s[i + |MemberText(m)|])
    ensures ReadMember(s, i) == Some(Read(m, i + |MemberText(m)|))
  {
    hide ReadChars, ReadValue, ValueText, IsNumeralChar, StandsAt, EscapeChar;
    var name, v := m.name + "\"", ValueText(m.value);
    UnescapedName(m.name);
    assert MemberText(m) == "\"" + (name + (":" + v));
    StandsApart("\"", name + (":" + v), s, i);
    StandsApart(name, ":" + v, s, i + 1);
    StandsApart(":", v, s, i + 1 + |name|);
    EscapedReads(m.name, s, i + 1);
    ValueReads(m.value, s, i + 2 + |name|);
  }

  lemma {:induction false} MembersRead(ms: seq<Member>, s: string, i: nat)
    requires ms != [] && AllProper(ms) && StandsAt(Joined(ms) + "}", s, i)
    ensures ReadMembers(s, i) == Some(Read(ms, i + |Joined(ms)| + 1))
    decreases |ms|
  {
    hide ReadMember, ReadMembers, MemberText, IsProper, StandsAt, Joined;
    var end := i + |MemberText(ms[0])|;
    JoinedStands(ms, s, i);
    OneMemberReads(ms[0], s, i);
    MembersStep(s, i, ms[0], end);
    if |ms| == 1 {
      assert ms == [ms[0]];
    } else {
      MembersRead(ms[1..], s, end + 1);
      assert [ms[0]] + ms[1..] == ms;
    }
  }

  /** Where joined members stand, the first one, a separator and the others follow each other. */
  lemma JoinedStands(ms: seq<Member>, s: string, i: nat)
    requires ms != [] && StandsAt(Joined(ms) + "}", s, i)
    ensures var end := i + |MemberText(ms[0])|;
            && end < |s| && StandsAt(MemberText(ms[0]), s, i)
            && (if |ms| == 1 then s[end] == '}' && |Joined(ms)| == |MemberText(ms[0])|
                else s[end] == ',' && StandsAt(Joined(ms[1..]) + "}", s, end + 1)
                     && |Joined(ms)| == |MemberText(ms[0])| + 1 + |Joined(ms[1..])|)
  {
    hide MemberText, StandsAt;
    var first := MemberText(ms[0]);
    if |ms| == 1 {
      assert first + (['}'] + []) == first + "}";
      StandsAround(first, '}', [], s, i);
    } else {
      hide Joined;
      JoinedFromFirst(ms);
      StandsAround(first, ',', Joined(ms[1..]) + "}", s, i);
    }
  }

  lemma JoinedFromFirst(ms: seq<Member>)
    requires |ms| > 1
    ensures Joined(ms) + "}" == MemberText(ms[0]) + ("," + (Joined(ms[1..]) + "}"))
    ensures |Joined(ms)| == |MemberText(ms[0])| + 1 + |Joined(ms[1..])|
  {
    hide MemberText;
    var a, b := MemberText(ms[0]), Joined(ms[1..]);
    assert Joined(ms) == a + "," + b;
    hide Joined;
    Regroup(a + ",", b, "}");
    Regroup(a, ",", b + "}");
  }

  lemma MembersStep(s: string, i: nat, m: Member, end: nat)
    requires i <= end < |s| && ReadMember(s, i) == Some(Read(m, end))
    ensures s[end] == '}' ==> ReadMembers(s, i) == Some(Read([m], end + 1))
    ensures s[end] == ',' && ReadMembers(s, end + 1).Some? ==>
              var rest := ReadMembers(s, end + 1).value;
              ReadMembers(s, i) == Some(Read([m] + rest.value, rest.next))
  {
    hide ReadMember;
  }

  lemma DecimalIsNumeral(n: nat)
    ensures IsNumeral(Decimal(n))
  {}

  lemma FixedAreProper(fmt: TimeFormat, p: Packet)
    requires fmt.Lawful()
    ensures AllProper(FixedMembers(fmt, p))
  {
    hide IsNumeral;
    DecimalIsNumeral(p.index + 1);
    DecimalIsNumeral(p.originalLength);
  }

  /** Reading an emitted line gives back every member: all names, all texts, all numbers. */
  lemma LineReadsBack(fmt: TimeFormat, p: Packet, process: Option<string>, path: Option<string>)
    requires fmt.Lawful()
    ensures var ms := LineMembers(fmt, p, process, path); var s := ObjectText(ms) + "\n";
            ReadObject(s, 0) == Some(Read(ms, |s| - 1))
  {
    var ms := LineMembers(fmt, p, process, path);
    var s := ObjectText(ms) + "\n";
    FixedAreProper(fmt, p);
    OptionalAreProper(process, path);
    ObjectReads(ms);
    hide FixedMembers, Optional, IsProper;
    assert AllProper(ms);
  }

  lemma ObjectReads(ms: seq<Member>)
    ensures ms != [] && AllProper(ms) ==>
              var s := ObjectText(ms) + "\n"; ReadObject(s, 0) == Some(Read(ms, |s| - 1))
  {
    hide Joined, ReadMembers, AllProper;
    if ms != [] && AllProper(ms) {
      var s := ObjectText(ms) + "\n";
      assert StandsAt(Joined(ms) + "}", s, 1);
      MembersRead(ms, s, 1);
      BeginsWithQuote(ms);
    }
  }

  lemma BeginsWithQuote(ms: seq<Member>)
    requires ms != []
    ensures Joined(ms) != "" && Joined(ms)[0] == '"'
  {
    hide ValueText;
  }

  lemma OptionalAreProper(process: Option<string>, path: Option<string>)
    ensures AllProper(Optional("process", process)) && AllProper(Optional("path", path))
  {}

  // ----- What a line says under which name -----

  /** What a line says under a name; nothing under any other name. */
  ghost function Said(fmt: TimeFormat, p: Packet, process: Option<string>, path: Option<string>, name: string)
    : (v: Option<Value>)
  {
    match name
    case "no" => Some(Number(Decimal(p.index + 1)))
    case "time" => Some(Number(fmt.seconds(p.timestamp)))
    case "src" => Some(Text(p.source))
    case "dst" => Some(Text(p.destination))
    case "proto" => Some(Text(p.protocol.display))
    case "len" => Some(Number(Decimal(p.originalLength)))
    case "info" => Some(Text(p.info))
    case "process" => if process.Some? then Some(Text(process.value)) else None
    case "path" => if path.Some? then Some(Text(path.value)) else None
    case _ => None
  }

  /** A line says each thing under its name, and nothing else. */
  lemma LinesFitNames(fmt: TimeFormat, p: Packet, process: Option<string>, path: Option<string>, m: Member)
    ensures m in LineMembers(fmt, p, process, path) <==> Said(fmt, p, process, path, m.name) == Some(m.value)
  {
    hide Decimal;
    FixedFitNames(fmt, p, process, path, m);
    OptionalMember("process", process, m);
    OptionalMember("path", path, m);
    hide FixedMembers, Optional;
    SaidApart(fmt, p, process, path, m.name);
  }

  lemma FixedFitNames(fmt: TimeFormat, p: Packet, process: Option<string>, path: Option<string>, m: Member)
    ensures m in FixedMembers(fmt, p)
            <==> m.name != "process" && m.name != "path" && Said(fmt, p, process, path, m.name) == Some(m.value)
  {
    hide Decimal;
    assert m == Member(m.name, m.value);
  }

  lemma OptionalMember(name: string, text: Option<string>, m: Member)
    ensures m in Optional(name, text) <==> m.name == name && text.Some? && m.value == Text(text.value)
  {
    assert m == Member(m.name, m.value);
  }

  lemma SaidApart(fmt: TimeFormat, p: Packet, process: Option<string>, path: Option<string>, name: string)
    ensures Said(fmt, p, process, path, "process") == if process.Some? then Some(Text(process.value)) else None
    ensures Said(fmt, p, process, path, "path") == if path.Some? then Some(Text(path.value)) else None
  {}
}
