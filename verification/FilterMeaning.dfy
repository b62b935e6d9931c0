/** What a filter means, said without its evaluator: values of a packet, numbers, texts, addresses and Boolean logic. */
module FilterMeaning {
  import opened Prelude
  import opened FilterAst
  import opened FilterEval
  import Numerals

  // ----- Orders -----

  ghost predicate NumberHolds(a: int, op: CompareOp, b: int) {
    match op
    case Eq => a == b
    case Ne => a != b
    case Gt => a > b
    case Lt => a < b
    case Ge => a >= b
    case Le => a <= b
  }

  /** Up to position `k` the texts agree; there the first one ends, or has the smaller character. */
  ghost predicate DiffersAt(a: string, b: string, k: nat) {
    && k <= |a| && k < |b|
    && (forall i :: 0 <= i < k ==> a[i] == b[i])
    && (k == |a| || a[k] < b[k])
  }

  ghost predicate TextBefore(a: string, b: string) {
    exists k :: DiffersAt(a, b, k)
  }

  ghost predicate TextHolds(a: string, op: CompareOp, b: string) {
    match op
    case Eq => a == b
    case Ne => a != b
    case Gt => TextBefore(b, a)
    case Lt => TextBefore(a, b)
    case Ge => a == b || TextBefore(b, a)
    case Le => a == b || TextBefore(a, b)
  }

  /** Addresses in one order: all of IPv4 by number, then all of IPv6 by number. */
  function AddressRank(a: Address): (n: int) {
    match a
    case V4(x) => x
    case V6(x) => 0x1_0000_0000 + x
  }

  lemma {:induction false} StrLessIsBefore(a: string, b: string)
    ensures StrLess(a, b) <==> TextBefore(a, b)
  {
    if a != "" && b != "" && a[0] == b[0] {
      StrLessIsBefore(a[1..], b[1..]);
      DiffersBehind(a, b);
    } else if b != "" && (a == "" || a[0] < b[0]) {
      assert DiffersAt(a, b, 0);
    }
  }

  lemma DiffersBehind(a: string, b: string)
    requires a != "" && b != "" && a[0] == b[0]
    ensures TextBefore(a, b) <==> TextBefore(a[1..], b[1..])
  {
    if k: nat :| DiffersAt(a, b, k) {
      assert k > 0;
      assert DiffersAt(a[1..], b[1..], k - 1);
    }
    if k: nat :| DiffersAt(a[1..], b[1..], k) {
      forall i | 0 <= i < k + 1 ensures a[i] == b[i] {
        if i > 0 { assert a[1..][i - 1] == b[1..][i - 1]; }
      }
      assert k < |a| - 1 ==> a[1..][k] == a[k + 1];
      assert b[1..][k] == b[k + 1];
      assert DiffersAt(a, b, k + 1);
    }
  }

  // ----- What a comparison is about -----

  /** A value of a packet that a field stands for. */
  datatype Subject = Number(n: nat) | Text(text: string) | Ip(text: string) | OfProtocol(protocol: Protocol)

  ghost function NumberIfAny(n: Option<nat>): (s: set<Subject>) {
    if n.Some? then {Number(n.value)} else {}
  }

  ghost function TextIfSome(t: Option<string>): (s: set<Subject>) {
    if t.Some? then {Text(t.value)} else {}
  }

  ghost function Bit(flags: nat, weight: nat): (s: set<Subject>)
    requires weight > 0
  {
    {Number(flags / weight % 2)}
  }

  /** The values of a packet that a field stands for; the flags of a link are a text or a number, as the value asks. */
  ghost function Subjects(f: Field, v: Value, pkt: Packet): (s: set<Subject>) {
    match f
    case IpSrc => {Ip(pkt.source)}
    case IpDst => {Ip(pkt.destination)}
    case IpAddr => {Ip(pkt.source), Ip(pkt.destination)}
    case PortSrc => NumberIfAny(pkt.srcPort)
    case PortDst => NumberIfAny(pkt.dstPort)
    case Port => NumberIfAny(pkt.srcPort) + NumberIfAny(pkt.dstPort)
    case Proto => {OfProtocol(pkt.protocol)}
    case Len => {Number(pkt.originalLength)}
    case Info => {Text(pkt.info)}
    case EthSrc => TextIfSome(pkt.ethSrc)
    case EthDst => TextIfSome(pkt.ethDst)
    case EthAddr => TextIfSome(pkt.ethSrc) + TextIfSome(pkt.ethDst)
    case VlanId => NumberIfAny(pkt.vlanId)
    case TcpFlagFin => Bit(pkt.tcpFlags, 0x01)
    case TcpFlagSyn => Bit(pkt.tcpFlags, 0x02)
    case TcpFlagRst => Bit(pkt.tcpFlags, 0x04)
    case TcpFlagPsh => Bit(pkt.tcpFlags, 0x08)
    case TcpFlagAck => Bit(pkt.tcpFlags, 0x10)
    case TcpFlagUrg => Bit(pkt.tcpFlags, 0x20)
    case PfAction => if IsPflog(pkt) then {Text(pkt.linkMeta.value.action)} else {}
    case PfDirection => if IsPflog(pkt) then {Text(pkt.linkMeta.value.direction)} else {}
    case PfIfname => if IsPflog(pkt) then {Text(pkt.linkMeta.value.ifname)} else {}
    case PfRule => if IsPflog(pkt) then {Number(pkt.linkMeta.value.ruleNumber)} else {}
    case PfReason => if IsPflog(pkt) then {Text(pkt.linkMeta.value.reason)} else {}
    case EncSpi => if IsEnc(pkt) then {Number(pkt.linkMeta.value.spi)} else {}
    case EncFlags =>
      if !IsEnc(pkt) then {}
      else if v.Str? then {Text(pkt.linkMeta.value.flagsText)}
      else {Number(pkt.linkMeta.value.flags)}
  }

  predicate IsPflog(pkt: Packet) {
    pkt.linkMeta.Some? && pkt.linkMeta.value.Pflog?
  }

  predicate IsEnc(pkt: Packet) {
    pkt.linkMeta.Some? && pkt.linkMeta.value.Enc?
  }

  /** The number a value stands for: a number, or decimal digits, possibly with a plus sign, that fit 64 bits. */
  ghost predicate StandsFor(v: Value, n: nat) {
    match v
    case Int(m) => n == m
    case Str(s) => n <= 0xffff_ffff_ffff_ffff && (IsDecimal(s, n) || (|s| > 1 && s[0] == '+' && IsDecimal(s[1..], n)))
    case Cidr(_, _) => false
  }

  ghost predicate IsDecimal(s: string, n: nat) {
    s != "" && Numerals.AllDigits(s, 10) && Numerals.Numeral(s, 10) == n
  }

  /** The text a value stands for. */
  ghost function TextOf(v: Value): (t: string)
    requires !v.Cidr?
  {
    if v.Str? then v.text else Numerals.Decimal(v.number)
  }

  ghost predicate TextAnswer(s: string, op: CompareOp, v: Value) {
    !v.Cidr? && TextHolds(Lower(s), op, Lower(TextOf(v)))
  }

  ghost predicate IsOrdering(op: CompareOp) {
    op.Gt? || op.Lt? || op.Ge? || op.Le?
  }

  ghost predicate InNetwork(os: Platform, s: string, v: Value)
    requires v.Cidr? && v.prefixLen <= v.addr.Width()
  {
    && os.parseIp(s).Some? && os.parseIp(s).value.V4? == v.addr.V4?
    && LeadingBits(os.parseIp(s).value, v.prefixLen) == LeadingBits(v.addr, v.prefixLen)
  }

  /** Networks by leading bits; the order of two addresses by rank; anything else by text. */
  ghost predicate IpAnswer(os: Platform, s: string, op: CompareOp, v: Value)
    requires v.Cidr? ==> v.prefixLen <= v.addr.Width()
  {
    if v.Cidr? then (op.Eq? && InNetwork(os, s, v)) || (op.Ne? && !InNetwork(os, s, v))
    else if IsOrdering(op) && v.Str? && os.parseIp(s).Some? && os.parseIp(v.text).Some? then
      NumberHolds(AddressRank(os.parseIp(s).value), op, AddressRank(os.parseIp(v.text).value))
    else TextAnswer(s, op, v)
  }

  ghost predicate Answers(os: Platform, x: Subject, op: CompareOp, v: Value)
    requires v.Cidr? ==> v.prefixLen <= v.addr.Width()
  {
    match x
    case Number(n) => exists m: nat :: StandsFor(v, m) && NumberHolds(n, op, m)
    case Text(t) => TextAnswer(t, op, v)
    case Ip(t) => IpAnswer(os, t, op, v)
    case OfProtocol(p) =>
      && v.Str?
      && (var named := Lower(v.text) == p.name || (p.alias.Some? && Lower(v.text) == p.alias.value);
          (op.Eq? && named) || (op.Ne? && !named))
  }

  // ----- The evaluator means that -----

  lemma NumberMeans(n: nat, op: CompareOp, v: Value)
    ensures CmpInt(n, op, v) <==> exists m: nat :: StandsFor(v, m) && NumberHolds(n, op, m)
  {
    hide Numerals.Numeral;
    match v {
      case Int(m) => assert StandsFor(v, m);
      case Str(s) =>
        NumeralStandsFor(s);
        var r := Numerals.ParseUnsigned(s, 10, 0xffff_ffff_ffff_ffff);
        hide Numerals.ParseUnsigned, StandsFor;
        if r.Some? { assert StandsFor(v, r.value); }
      case Cidr(_, _) =>
    }
  }

  lemma NumeralStandsFor(s: string)
    ensures forall n: nat :: StandsFor(Str(s), n) <==> Numerals.ParseUnsigned(s, 10, 0xffff_ffff_ffff_ffff) == Some(n)
  {
    hide Numerals.Numeral;
    if |s| > 1 && s[0] == '+' { assert !Numerals.AllDigits(s, 10); }
  }

  lemma TextMeans(s: string, op: CompareOp, v: Value)
    ensures CmpStr(s, op, v) <==> TextAnswer(s, op, v)
  {
    if !v.Cidr? {
      var a, b := Lower(s), Lower(TextOf(v));
      StrLessIsBefore(a, b);
      StrLessIsBefore(b, a);
      StrLessIsTotal(a, b);
    }
  }

  lemma IpMeans(os: Platform, s: string, op: CompareOp, v: Value)
    requires v.Cidr? ==> v.prefixLen <= v.addr.Width()
    ensures CmpIp(os, s, op, v) <==> IpAnswer(os, s, op, v)
  {
    hide CmpStr, TextAnswer, LeadingBits, InSubnet;
    TextMeans(s, op, v);
    if v.Cidr? && os.parseIp(s).Some? { InSubnetIffSamePrefix(os.parseIp(s).value, v.addr, v.prefixLen); }
  }

  /** Some value in the set answers yes. */
  ghost predicate AnyAnswers(os: Platform, xs: set<Subject>, op: CompareOp, v: Value)
    requires v.Cidr? ==> v.prefixLen <= v.addr.Width()
  {
    exists x :: x in xs && Answers(os, x, op, v)
  }

  lemma OneAnswers(os: Platform, x: Subject, op: CompareOp, v: Value)
    requires v.Cidr? ==> v.prefixLen <= v.addr.Width()
    ensures AnyAnswers(os, {x}, op, v) <==> Answers(os, x, op, v)
    ensures !AnyAnswers(os, {}, op, v)
  {
    hide Answers;
  }

  lemma EitherAnswers(os: Platform, xs: set<Subject>, ys: set<Subject>, op: CompareOp, v: Value)
    requires v.Cidr? ==> v.prefixLen <= v.addr.Width()
    ensures AnyAnswers(os, xs + ys, op, v) <==> AnyAnswers(os, xs, op, v) || AnyAnswers(os, ys, op, v)
  {
    hide Answers;
  }

  lemma NumberAnswersIff(os: Platform, n: Option<nat>, op: CompareOp, v: Value)
    requires v.Cidr? ==> v.prefixLen <= v.addr.Width()
    ensures AnyAnswers(os, NumberIfAny(n), op, v) <==> CmpOptInt(n, op, v)
  {
    hide CmpInt, StandsFor, NumberHolds, AnyAnswers;
    if n.Some? {
      NumberMeans(n.value, op, v);
      OneAnswers(os, Number(n.value), op, v);
    } else {
      OneAnswers(os, Number(0), op, v);
    }
  }

  lemma TextAnswersIff(os: Platform, t: Option<string>, op: CompareOp, v: Value)
    requires v.Cidr? ==> v.prefixLen <= v.addr.Width()
    ensures AnyAnswers(os, TextIfSome(t), op, v) <==> t.Some? && CmpStr(t.value, op, v)
  {
    hide CmpStr, TextAnswer, AnyAnswers;
    if t.Some? {
      TextMeans(t.value, op, v);
      OneAnswers(os, Text(t.value), op, v);
    } else {
      OneAnswers(os, Text(""), op, v);
    }
  }

  lemma IpAnswersIff(os: Platform, t: string, op: CompareOp, v: Value)
    requires v.Cidr? ==> v.prefixLen <= v.addr.Width()
    ensures AnyAnswers(os, {Ip(t)}, op, v) <==> CmpIp(os, t, op, v)
  {
    hide CmpIp, IpAnswer, AnyAnswers;
    IpMeans(os, t, op, v);
    OneAnswers(os, Ip(t), op, v);
  }

  lemma IpFieldMeans(os: Platform, f: Field, op: CompareOp, v: Value, pkt: Packet)
    requires (v.Cidr? ==> v.prefixLen <= v.addr.Width()) && (f.IpSrc? || f.IpDst? || f.IpAddr?)
    ensures EvalCompare(os, f, op, v, pkt) <==> AnyAnswers(os, Subjects(f, v, pkt), op, v)
  {
    hide CmpIp, AnyAnswers;
    IpAnswersIff(os, pkt.source, op, v);
    IpAnswersIff(os, pkt.destination, op, v);
    EitherAnswers(os, {Ip(pkt.source)}, {Ip(pkt.destination)}, op, v);
    assert {Ip(pkt.source)} + {Ip(pkt.destination)} == {Ip(pkt.source), Ip(pkt.destination)};
  }

  lemma PortFieldMeans(os: Platform, f: Field, op: CompareOp, v: Value, pkt: Packet)
    requires (v.Cidr? ==> v.prefixLen <= v.addr.Width()) && (f.PortSrc? || f.PortDst? || f.Port? || f.VlanId? || f.Len?)
    ensures EvalCompare(os, f, op, v, pkt) <==> AnyAnswers(os, Subjects(f, v, pkt), op, v)
  {
    hide CmpInt, AnyAnswers;
    NumberAnswersIff(os, pkt.srcPort, op, v);
    NumberAnswersIff(os, pkt.dstPort, op, v);
    NumberAnswersIff(os, pkt.vlanId, op, v);
    NumberAnswersIff(os, Some(pkt.originalLength), op, v);
    EitherAnswers(os, NumberIfAny(pkt.srcPort), NumberIfAny(pkt.dstPort), op, v);
  }

  lemma FlagFieldMeans(os: Platform, f: Field, op: CompareOp, v: Value, pkt: Packet)
    requires (v.Cidr? ==> v.prefixLen <= v.addr.Width()) && f.IsBoolean()
    ensures EvalCompare(os, f, op, v, pkt) <==> AnyAnswers(os, Subjects(f, v, pkt), op, v)
  {
    hide CmpInt, AnyAnswers;
    assert Pow2(2) == 4 && Pow2(3) == 8 && Pow2(4) == 16 && Pow2(5) == 32;
    var bit := pkt.tcpFlags / Pow2(FlagBit(f)) % 2;
    NumberAnswersIff(os, Some(bit), op, v);
  }

  lemma TextFieldMeans(os: Platform, f: Field, op: CompareOp, v: Value, pkt: Packet)
    requires (v.Cidr? ==> v.prefixLen <= v.addr.Width()) && (f.Info? || f.EthSrc? || f.EthDst? || f.EthAddr?)
    ensures EvalCompare(os, f, op, v, pkt) <==> AnyAnswers(os, Subjects(f, v, pkt), op, v)
  {
    hide CmpStr, AnyAnswers;
    TextAnswersIff(os, Some(pkt.info), op, v);
    TextAnswersIff(os, pkt.ethSrc, op, v);
    TextAnswersIff(os, pkt.ethDst, op, v);
    EitherAnswers(os, TextIfSome(pkt.ethSrc), TextIfSome(pkt.ethDst), op, v);
  }

  lemma PfFieldMeans(os: Platform, f: Field, op: CompareOp, v: Value, pkt: Packet)
    requires v.Cidr? ==> v.prefixLen <= v.addr.Width()
    requires f.PfAction? || f.PfDirection? || f.PfIfname? || f.PfRule? || f.PfReason?
    ensures EvalCompare(os, f, op, v, pkt) <==> AnyAnswers(os, Subjects(f, v, pkt), op, v)
  {
    hide CmpStr, CmpInt, AnyAnswers;
    OneAnswers(os, Text(""), op, v);
    if IsPflog(pkt) {
      var m := pkt.linkMeta.value;
      match f {
        case PfAction => TextAnswersIff(os, Some(m.action), op, v);
        case PfDirection => TextAnswersIff(os, Some(m.direction), op, v);
        case PfIfname => TextAnswersIff(os, Some(m.ifname), op, v);
        case PfReason => TextAnswersIff(os, Some(m.reason), op, v);
        case PfRule => NumberAnswersIff(os, Some(m.ruleNumber), op, v);
      }
    }
  }

  lemma EncFieldMeans(os: Platform, f: Field, op: CompareOp, v: Value, pkt: Packet)
    requires (v.Cidr? ==> v.prefixLen <= v.addr.Width()) && (f.EncSpi? || f.EncFlags?)
    ensures EvalCompare(os, f, op, v, pkt) <==> AnyAnswers(os, Subjects(f, v, pkt), op, v)
  {
    hide CmpStr, CmpInt, AnyAnswers;
    OneAnswers(os, Text(""), op, v);
    NetworkIsNoNumber(v, op);
    if IsEnc(pkt) {
      var m := pkt.linkMeta.value;
      TextAnswersIff(os, Some(m.flagsText), op, v);
      NumberAnswersIff(os, Some(m.flags), op, v);
      NumberAnswersIff(os, Some(m.spi), op, v);
    }
  }

  lemma NetworkIsNoNumber(v: Value, op: CompareOp)
    ensures v.Cidr? ==> forall n: nat :: !CmpInt(n, op, v)
  {}

  lemma ProtocolFieldMeans(os: Platform, op: CompareOp, v: Value, pkt: Packet)
    requires v.Cidr? ==> v.prefixLen <= v.addr.Width()
    ensures EvalCompare(os, Proto, op, v, pkt) <==> AnyAnswers(os, Subjects(Proto, v, pkt), op, v)
  {
    hide AnyAnswers;
    OneAnswers(os, OfProtocol(pkt.protocol), op, v);
  }

  /**
   * A comparison holds of a packet exactly if it holds of one of the values the field stands for: numbers compare as
   * numbers, texts at their first difference ignoring case, addresses by rank or network, protocols by name.
   */
  lemma ComparisonMeans(os: Platform, f: Field, op: CompareOp, v: Value, pkt: Packet)
    requires v.Cidr? ==> v.prefixLen <= v.addr.Width()
    ensures Matches(os, Compare(f, op, v), pkt) <==> exists x :: x in Subjects(f, v, pkt) && Answers(os, x, op, v)
  {
    hide EvalCompare, Subjects, Answers, LeadingBits;
    if f.IpSrc? || f.IpDst? || f.IpAddr? {
      IpFieldMeans(os, f, op, v, pkt);
    } else if f.PortSrc? || f.PortDst? || f.Port? || f.VlanId? || f.Len? {
      PortFieldMeans(os, f, op, v, pkt);
    } else if f.IsBoolean() {
      FlagFieldMeans(os, f, op, v, pkt);
    } else if f.Info? || f.EthSrc? || f.EthDst? || f.EthAddr? {
      TextFieldMeans(os, f, op, v, pkt);
    } else if f.EncSpi? || f.EncFlags? {
      EncFieldMeans(os, f, op, v, pkt);
    } else if f.Proto? {
      ProtocolFieldMeans(os, op, v, pkt);
    } else {
      PfFieldMeans(os, f, op, v, pkt);
    }
  }

  /** In particular: a length compares with a number as the two numbers do. */
  lemma LengthMeans(os: Platform, op: CompareOp, m: u64, pkt: Packet)
    ensures Matches(os, Compare(Len, op, Int(m)), pkt) <==> NumberHolds(pkt.originalLength, op, m)
  {
    hide EvalCompare;
    ComparisonMeans(os, Len, op, Int(m), pkt);
    assert StandsFor(Int(m), m);
    assert Number(pkt.originalLength) in Subjects(Len, Int(m), pkt);
  }

  /** And a port as either of a packet's ports does. */
  lemma PortMeans(os: Platform, op: CompareOp, m: u64, pkt: Packet)
    ensures Matches(os, Compare(Port, op, Int(m)), pkt)
            <==> || (pkt.srcPort.Some? && NumberHolds(pkt.srcPort.value, op, m))
                 || (pkt.dstPort.Some? && NumberHolds(pkt.dstPort.value, op, m))
  {
    hide EvalCompare, NumberHolds;
    ComparisonMeans(os, Port, op, Int(m), pkt);
    assert StandsFor(Int(m), m);
    if pkt.srcPort.Some? { assert Number(pkt.srcPort.value) in Subjects(Port, Int(m), pkt); }
    if pkt.dstPort.Some? { assert Number(pkt.dstPort.value) in Subjects(Port, Int(m), pkt); }
  }

  /** A bare protocol name holds of the packets of a protocol with that name, and a bare flag of those that carry it. */
  lemma BareFormsMean(os: Platform, f: Field, name: string, pkt: Packet)
    ensures Matches(os, ProtoMatch(name), pkt)
            <==> Lower(name) == pkt.protocol.name || pkt.protocol.alias == Some(Lower(name))
    ensures f.IsBoolean() ==> (Matches(os, BareField(f), pkt) <==> Number(1) in Subjects(f, Int(0), pkt))
  {
    if f.IsBoolean() {
      BareFormsDesugar(os, f, name, pkt);
      ComparisonMeans(os, f, Ne, Int(0), pkt);
      assert StandsFor(Int(0), 0);
      hide EvalCompare;
      FlagIsOneOrZero(f, pkt);
    }
  }

  lemma FlagIsOneOrZero(f: Field, pkt: Packet)
    requires f.IsBoolean()
    ensures Subjects(f, Int(0), pkt) == {Number(0)} || Subjects(f, Int(0), pkt) == {Number(1)}
  {}

  // ----- The protocols that have names -----

  /** The protocols the program knows, with the names they match and the text they are shown as. */
  function KnownProtocols(): (ps: seq<Protocol>) {
    [Protocol("tcp", None, "TCP"), Protocol("udp", None, "UDP"), Protocol("icmp", None, "ICMP"),
     Protocol("icmpv6", None, "ICMPv6"), Protocol("arp", None, "ARP"), Protocol("dns", None, "DNS"),
     Protocol("http", None, "HTTP"), Protocol("tls", Some("https"), "TLS"), Protocol("ssh", None, "SSH"),
     Protocol("smtp", None, "SMTP"), Protocol("ftp", None, "FTP"), Protocol("telnet", None, "Telnet"),
     Protocol("rdp", None, "RDP"), Protocol("bgp", None, "BGP"), Protocol("ldap", None, "LDAP"),
     Protocol("dhcp", None, "DHCP"), Protocol("ntp", None, "NTP"), Protocol("snmp", None, "SNMP"),
     Protocol("syslog", None, "Syslog"), Protocol("tftp", None, "TFTP"), Protocol("mdns", None, "mDNS"),
     Protocol("radius", None, "RADIUS"), Protocol("ipv4", Some("ip"), "IPv4"), Protocol("ipv6", None, "IPv6"),
     Protocol("ethernet", Some("eth"), "Ethernet"), Protocol("pflog", Some("pf"), "pflog"),
     Protocol("enc", Some("ipsec"), "enc")]
  }

  ghost predicate IsNameOf(p: Protocol, lower: string) {
    p.name == lower || p.alias == Some(lower)
  }

  lemma NamesAreThose(lower: string)
    ensures lower in ProtocolNames <==> exists p :: p in KnownProtocols() && IsNameOf(p, lower)
  {
    var ps := KnownProtocols();
    if lower in ProtocolNames {
      var i := NameAt(lower);
      assert ps[i] in ps;
    }
    if p :| p in ps && IsNameOf(p, lower) {
      var i :| 0 <= i < |ps| && ps[i] == p;
      NamedIsKnown(i);
    }
  }

  lemma NamedIsKnown(i: nat)
    requires i < |KnownProtocols()|
    ensures var p := KnownProtocols()[i];
            p.name in ProtocolNames && (p.alias.Some? ==> p.alias.value in ProtocolNames)
  {}

  lemma NameAt(lower: string) returns (i: nat)
    requires lower in ProtocolNames
    ensures i < |KnownProtocols()| && IsNameOf(KnownProtocols()[i], lower)
  {
    i := match lower
         case "tcp" => 0 case "udp" => 1 case "icmp" => 2 case "icmpv6" => 3 case "arp" => 4 case "dns" => 5
         case "http" => 6 case "tls" => 7 case "https" => 7 case "ssh" => 8 case "smtp" => 9 case "ftp" => 10
         case "telnet" => 11 case "rdp" => 12 case "bgp" => 13 case "ldap" => 14 case "dhcp" => 15 case "ntp" => 16
         case "snmp" => 17 case "syslog" => 18 case "tftp" => 19 case "mdns" => 20 case "radius" => 21
         case "ipv4" => 22 case "ip" => 22 case "ipv6" => 23 case "ethernet" => 24 case "eth" => 24
         case "pflog" => 25 case "pf" => 25 case "enc" => 26 case _ => 26;
  }

  /** A word alone is a filter exactly if some packet protocol with a name of its own matches it. */
  lemma KnownIffNamed(s: string)
    ensures IsKnownProtocol(s) <==> exists p :: p in KnownProtocols() && MatchesProtocol(p, s)
  {
    hide ProtocolNames, KnownProtocols;
    NamesAreThose(Lower(s));
    assert forall p :: MatchesProtocol(p, s) <==> IsNameOf(p, Lower(s));
  }

  /** What a packet's protocol is shown as, typed in as a filter, matches the packet. */
  lemma ShownNameMatches(p: Protocol)
    requires p in KnownProtocols()
    ensures MatchesProtocol(p, p.display)
  {
    var i :| 0 <= i < |KnownProtocols()| && KnownProtocols()[i] == p;
    if i < 14 { ShownNameInFront(i); } else { ShownNameBehind(i); }
  }

  lemma ShownNameInFront(i: nat)
    requires i < 14
    ensures var p := KnownProtocols()[i]; Lower(p.display) == p.name
  {
    hide ProtocolNames;
  }

  lemma ShownNameBehind(i: nat)
    requires 14 <= i < |KnownProtocols()|
    ensures var p := KnownProtocols()[i]; Lower(p.display) == p.name
  {
    hide ProtocolNames;
  }
}
