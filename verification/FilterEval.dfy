/** Evaluating a filter expression on a packet. */
module FilterEval {
  import opened Prelude
  import opened FilterAst
  import Numerals
  import Bits

  /** A protocol, by the spellings the program gives it. */
  datatype Protocol = Protocol(name: string, alias: Option<string>, display: string)

  /** Link-layer metadata, with its coded fields already rendered as text. */
  datatype LinkMeta =
    | Pflog(action: string, direction: string, ifname: string, ruleNumber: u32, reason: string)
    | Enc(spi: u32, flags: u32, flagsText: string)

  datatype Packet = Packet(
    index: nat, timestamp: real, source: string, destination: string,
    srcPort: Option<nat>, dstPort: Option<nat>, protocol: Protocol, originalLength: nat, info: string,
    ethSrc: Option<string>, ethDst: Option<string>, vlanId: Option<nat>, tcpFlags: nat, linkMeta: Option<LinkMeta>)

  /** Byte-wise string order; for UTF-8 text this is the order of code points. */
  predicate StrLess(a: string, b: string) {
    b != [] && (a == [] || a[0] < b[0] || (a[0] == b[0] && StrLess(a[1..], b[1..])))
  }

  predicate Ordered(op: CompareOp, less: bool, equal: bool) {
    match op
    case Eq => equal
    case Ne => !equal
    case Gt => !less && !equal
    case Lt => less
    case Ge => !less
    case Le => less || equal
  }

  predicate CmpText(a: string, op: CompareOp, b: string) {
    Ordered(op, StrLess(Lower(a), Lower(b)), Lower(a) == Lower(b))
  }

  predicate CmpStr(text: string, op: CompareOp, v: Value) {
    match v
    case Str(s) => CmpText(text, op, s)
    case Int(n) => CmpText(text, op, Numerals.Decimal(n))
    case Cidr(_, _) => false
  }

  predicate CmpInt(n: nat, op: CompareOp, v: Value) {
    match v
    case Int(m) => Ordered(op, n < m, n == m)
    case Str(s) =>
      (match Numerals.ParseUnsigned(s, 10, 0xffff_ffff_ffff_ffff)
       case Some(m) => Ordered(op, n < m, n == m)
       case None => false)
    case Cidr(_, _) => false
  }

  function Mask(width: nat, prefixLen: nat): (m: nat) {
    if prefixLen == 0 then 0
    else if prefixLen >= width then Bits.AllOnes(width)
    else Bits.ShiftLeft(Bits.AllOnes(width), width - prefixLen, width)
  }

  predicate InSubnet(ip: Address, net: Address, prefixLen: nat) {
    match (ip, net)
    case (V4(a), V4(b)) => Bits.BitAnd(a, Mask(32, prefixLen)) == Bits.BitAnd(b, Mask(32, prefixLen))
    case (V6(a), V6(b)) => Bits.BitAnd(a, Mask(128, prefixLen)) == Bits.BitAnd(b, Mask(128, prefixLen))
    case _ => false
  }

  /** IPv4 addresses come before IPv6 ones; within a family the order is numeric. */
  predicate AddressLess(a: Address, b: Address) {
    match (a, b)
    case (V4(x), V4(y)) => x < y
    case (V6(x), V6(y)) => x < y
    case (V4(_), V6(_)) => true
    case (V6(_), V4(_)) => false
  }

  predicate CmpIp(os: Platform, text: string, op: CompareOp, v: Value) {
    if v.Cidr? then
      var inside := match os.parseIp(text)
                    case Some(ip) => InSubnet(ip, v.addr, v.prefixLen)
                    case None => false;
      (op.Eq? && inside) || (op.Ne? && !inside)
    else if !op.Eq? && !op.Ne? && v.Str? && os.parseIp(text).Some? && os.parseIp(v.text).Some? then
      var a, b := os.parseIp(text).value, os.parseIp(v.text).value;
      Ordered(op, AddressLess(a, b), a == b)
    else CmpStr(text, op, v)
  }

  predicate MatchesProtocol(p: Protocol, s: string) {
    Lower(s) == p.name || p.alias == Some(Lower(s))
  }

  predicate CmpProto(p: Protocol, op: CompareOp, v: Value) {
    v.Str? && ((op.Eq? && MatchesProtocol(p, v.text)) || (op.Ne? && !MatchesProtocol(p, v.text)))
  }

  predicate CmpMac(mac: Option<string>, op: CompareOp, v: Value) {
    mac.Some? && CmpStr(mac.value, op, v)
  }

  predicate CmpOptInt(n: Option<nat>, op: CompareOp, v: Value) {
    n.Some? && CmpInt(n.value, op, v)
  }

  /** The mask a bare flag field is tested with. */
  function FlagMask(f: Field): (mask: nat)
    requires f.IsBoolean()
  {
    match f
    case TcpFlagSyn => 0x02
    case TcpFlagAck => 0x10
    case TcpFlagFin => 0x01
    case TcpFlagRst => 0x04
    case TcpFlagPsh => 0x08
    case TcpFlagUrg => 0x20
  }

  /** How far the TCP flags are shifted when a flag field is compared. */
  function FlagBit(f: Field): (k: nat)
    requires f.IsBoolean()
  {
    match f
    case TcpFlagFin => 0
    case TcpFlagSyn => 1
    case TcpFlagRst => 2
    case TcpFlagPsh => 3
    case TcpFlagAck => 4
    case TcpFlagUrg => 5
  }

  predicate EvalCompare(os: Platform, f: Field, op: CompareOp, v: Value, pkt: Packet) {
    match f
    case IpSrc => CmpIp(os, pkt.source, op, v)
    case IpDst => CmpIp(os, pkt.destination, op, v)
    case IpAddr => CmpIp(os, pkt.source, op, v) || CmpIp(os, pkt.destination, op, v)
    case PortSrc => CmpOptInt(pkt.srcPort, op, v)
    case PortDst => CmpOptInt(pkt.dstPort, op, v)
    case Port => CmpOptInt(pkt.srcPort, op, v) || CmpOptInt(pkt.dstPort, op, v)
    case Proto => CmpProto(pkt.protocol, op, v)
    case Len => CmpInt(pkt.originalLength, op, v)
    case Info => CmpStr(pkt.info, op, v)
    case EthSrc => CmpMac(pkt.ethSrc, op, v)
    case EthDst => CmpMac(pkt.ethDst, op, v)
    case EthAddr => CmpMac(pkt.ethSrc, op, v) || CmpMac(pkt.ethDst, op, v)
    case VlanId => CmpOptInt(pkt.vlanId, op, v)
    case PfAction => PfMeta(pkt).Some? && CmpStr(pkt.linkMeta.value.action, op, v)
    case PfDirection => PfMeta(pkt).Some? && CmpStr(pkt.linkMeta.value.direction, op, v)
    case PfIfname => PfMeta(pkt).Some? && CmpStr(pkt.linkMeta.value.ifname, op, v)
    case PfRule => PfMeta(pkt).Some? && CmpInt(pkt.linkMeta.value.ruleNumber, op, v)
    case PfReason => PfMeta(pkt).Some? && CmpStr(pkt.linkMeta.value.reason, op, v)
    case EncSpi => EncMeta(pkt).Some? && CmpInt(pkt.linkMeta.value.spi, op, v)
    case EncFlags =>
      EncMeta(pkt).Some? && (match v
                             case Str(_) => CmpStr(pkt.linkMeta.value.flagsText, op, v)
                             case Int(_) => CmpInt(pkt.linkMeta.value.flags, op, v)
                             case Cidr(_, _) => false)
    case flag => CmpInt(pkt.tcpFlags / Pow2(FlagBit(flag)) % 2, op, v)
  }

  function PfMeta(pkt: Packet): (m: Option<LinkMeta>)
    ensures m.Some? ==> pkt.linkMeta == m && m.value.Pflog?
  {
    if pkt.linkMeta.Some? && pkt.linkMeta.value.Pflog? then pkt.linkMeta else None
  }

  function EncMeta(pkt: Packet): (m: Option<LinkMeta>)
    ensures m.Some? ==> pkt.linkMeta == m && m.value.Enc?
  {
    if pkt.linkMeta.Some? && pkt.linkMeta.value.Enc? then pkt.linkMeta else None
  }

  /** `str_contains_lower`: the search over windows; `i` is the first window still to be tried. */
  predicate AnyWindow(haystack: string, needle: string, i: nat)
    requires i + |needle| <= |haystack| + 1
    decreases |haystack| - i
  {
    i + |needle| <= |haystack|
    && ((forall k :: 0 <= k < |needle| ==> LowerChar(haystack[i + k]) == needle[k]) || AnyWindow(haystack, needle, i + 1))
  }

  predicate ContainsLower(haystack: string, needle: string) {
    needle == "" || (|haystack| >= |needle| && AnyWindow(haystack, needle, 0))
  }

  predicate EvalContains(f: Field, needle: string, pkt: Packet) {
    match f
    case IpSrc => ContainsLower(pkt.source, needle)
    case IpDst => ContainsLower(pkt.destination, needle)
    case IpAddr => ContainsLower(pkt.source, needle) || ContainsLower(pkt.destination, needle)
    case Info => ContainsLower(pkt.info, needle)
    case Proto => ContainsLower(pkt.protocol.name, needle)
    case EthSrc => pkt.ethSrc.Some? && ContainsLower(pkt.ethSrc.value, needle)
    case EthDst => pkt.ethDst.Some? && ContainsLower(pkt.ethDst.value, needle)
    case EthAddr =>
      || (pkt.ethSrc.Some? && ContainsLower(pkt.ethSrc.value, needle))
      || (pkt.ethDst.Some? && ContainsLower(pkt.ethDst.value, needle))
    case PfAction => PfMeta(pkt).Some? && ContainsLower(pkt.linkMeta.value.action, needle)
    case PfDirection => PfMeta(pkt).Some? && ContainsLower(pkt.linkMeta.value.direction, needle)
    case PfIfname => PfMeta(pkt).Some? && ContainsLower(pkt.linkMeta.value.ifname, needle)
    case PfReason => PfMeta(pkt).Some? && ContainsLower(pkt.linkMeta.value.reason, needle)
    case EncFlags => EncMeta(pkt).Some? && ContainsLower(pkt.linkMeta.value.flagsText, needle)
    case _ => false
  }

  predicate Matches(os: Platform, e: Expr, pkt: Packet) {
    match e
    case Compare(f, op, v) => EvalCompare(os, f, op, v, pkt)
    case Contains(f, needle) => EvalContains(f, needle, pkt)
    case ProtoMatch(name) => MatchesProtocol(pkt.protocol, name)
    case BareField(f) => f.IsBoolean() && Bits.BitAnd(pkt.tcpFlags, FlagMask(f)) != 0
    case And(l, r) => Matches(os, l, pkt) && Matches(os, r, pkt)
    case Or(l, r) => Matches(os, l, pkt) || Matches(os, r, pkt)
    case Not(x) => !Matches(os, x, pkt)
  }

  // ----- CIDR comparisons -----

  function AddressBits(a: Address): (n: nat)
    ensures n < Pow2(a.Width())
  {
    AddressRange(a);
    match a
    case V4(x) => x
    case V6(x) => x
  }

  lemma Pow2Plus8(n: nat)
    ensures Pow2(n + 8) == 256 * Pow2(n)
  {
    assert Pow2(n + 4) == 16 * Pow2(n) by { assert Pow2(n + 2) == 4 * Pow2(n); }
    assert Pow2(n + 6) == 4 * Pow2(n + 4);
  }

  lemma Pow2Plus32(n: nat)
    ensures Pow2(n + 32) == 0x1_0000_0000 * Pow2(n)
  {
    Pow2Plus8(n);
    Pow2Plus8(n + 8);
    Pow2Plus8(n + 16);
    Pow2Plus8(n + 24);
  }

  lemma Pow2Plus128(n: nat)
    ensures Pow2(n + 128) == 0x1_0000_0000_0000_0000_0000_0000_0000_0000 * Pow2(n)
  {
    Pow2Plus32(n);
    Pow2Plus32(n + 32);
    Pow2Plus32(n + 64);
    Pow2Plus32(n + 96);
  }

  /** The address types hold exactly the numbers of their width. */
  lemma AddressRange(a: Address)
    ensures Pow2(a.Width()) == if a.V4? then 0x1_0000_0000 else 0x1_0000_0000_0000_0000_0000_0000_0000_0000
  {
    Pow2Plus32(0);
    Pow2Plus128(0);
  }

  /** The first `prefixLen` bits of an address. */
  function LeadingBits(a: Address, prefixLen: nat): (n: int)
    requires prefixLen <= a.Width()
  {
    AddressBits(a) / Pow2(a.Width() - prefixLen)
  }

  lemma MaskIsHighOnes(width: nat, prefixLen: nat)
    requires prefixLen <= width
    ensures Mask(width, prefixLen) == Bits.HighOnes(width - prefixLen, width)
  {
    Bits.ShiftedOnes(width - prefixLen, width);
  }

  lemma MaskKeepsLeadingBits(x: nat, y: nat, width: nat, prefixLen: nat)
    requires x < Pow2(width) && y < Pow2(width) && prefixLen <= width
    ensures Bits.BitAnd(x, Mask(width, prefixLen)) == Bits.BitAnd(y, Mask(width, prefixLen))
            <==> x / Pow2(width - prefixLen) == y / Pow2(width - prefixLen)
  {
    hide *;
    var k := width - prefixLen;
    var p := Pow2(k);
    MaskIsHighOnes(width, prefixLen);
    Bits.AndWithMask(x, k, width);
    Bits.AndWithMask(y, k, width);
    MultiplesDiffer(x / p, y / p, p);
  }

  lemma MultiplesDiffer(a: nat, b: nat, p: nat)
    requires p > 0
    ensures a * p == b * p <==> a == b
  {
    Bits.DivUnique(a * p, p, a, 0);
    Bits.DivUnique(b * p, p, b, 0);
  }

  /** Subnet membership is equality of leading bits within one address family. */
  lemma InSubnetIffSamePrefix(ip: Address, net: Address, prefixLen: nat)
    requires prefixLen <= net.Width()
    ensures InSubnet(ip, net, prefixLen)
            <==> ip.V4? == net.V4? && LeadingBits(ip, prefixLen) == LeadingBits(net, prefixLen)
  {
    hide Bits.BitAnd, Mask, Pow2;
    if ip.V4? == net.V4? {
      MaskKeepsLeadingBits(AddressBits(ip), AddressBits(net), net.Width(), prefixLen);
    }
  }

  /** A CIDR test holds exactly for addresses of the network's family with its leading bits; `!=` is its complement. */
  lemma CidrIsPrefixEquality(os: Platform, text: string, op: CompareOp, net: Address, prefixLen: nat)
    requires prefixLen <= net.Width()
    ensures var inside := exists ip: Address :: os.parseIp(text) == Some(ip)
                            && ip.V4? == net.V4? && LeadingBits(ip, prefixLen) == LeadingBits(net, prefixLen);
            CmpIp(os, text, op, Cidr(net, prefixLen)) <==> (op.Eq? && inside) || (op.Ne? && !inside)
  {
    if os.parseIp(text).Some? {
      InSubnetIffSamePrefix(os.parseIp(text).value, net, prefixLen);
    }
  }

  lemma DivideFurther(x: nat, a: nat, b: nat)
    ensures x / Pow2(a) / Pow2(b) == x / Pow2(a + b)
  {
    Pow2Sum(a, b);
    Bits.DivDiv(x, Pow2(a), Pow2(b));
  }

  lemma SameWidth(a: Address, b: Address)
    requires a.V4? == b.V4?
    ensures a.Width() == b.Width()
  {}

  lemma LeadingBitsShorten(a: Address, long: nat, short: nat)
    requires short <= long <= a.Width()
    ensures LeadingBits(a, short) == LeadingBits(a, long) / Pow2(long - short)
  {
    hide AddressBits, Pow2;
    DivideFurther(AddressBits(a), a.Width() - long, long - short);
  }

  /** An address in a subnet is in every wider subnet of the same network. */
  lemma ShorterPrefixIsWider(ip: Address, net: Address, long: nat, short: nat)
    requires short <= long <= net.Width()
    ensures InSubnet(ip, net, long) ==> InSubnet(ip, net, short)
  {
    hide *;
    InSubnetIffSamePrefix(ip, net, long);
    InSubnetIffSamePrefix(ip, net, short);
    if ip.V4? == net.V4? {
      SameWidth(ip, net);
      LeadingBitsShorten(ip, long, short);
      LeadingBitsShorten(net, long, short);
    }
  }

  // ----- Desugarings the grammar documents -----

  lemma MaskIsBit(f: Field)
    requires f.IsBoolean()
    ensures FlagMask(f) == Pow2(FlagBit(f))
  {
    assert Pow2(2) == 4 && Pow2(3) == 8 && Pow2(4) == 16 && Pow2(5) == 32;
  }

  /** A bare flag means the flag's field is not 0, and a bare protocol name means the protocol equals it. */
  lemma BareFormsDesugar(os: Platform, f: Field, name: string, pkt: Packet)
    ensures f.IsBoolean() ==> Matches(os, BareField(f), pkt) == Matches(os, Compare(f, Ne, Int(0)), pkt)
    ensures Matches(os, ProtoMatch(name), pkt) == Matches(os, Compare(Proto, Eq, Str(name)), pkt)
  {
    if f.IsBoolean() {
      MaskIsBit(f);
      Bits.AndWithBit(pkt.tcpFlags, FlagBit(f));
    }
  }

  /** The lower-cased text has the needle at position `j`. */
  ghost predicate OccursAt(haystack: string, needle: string, j: nat) {
    j + |needle| <= |haystack| && Lower(haystack)[j..j + |needle|] == needle
  }

  lemma {:induction false} AnyWindowFinds(haystack: string, needle: string, i: nat)
    requires i + |needle| <= |haystack| + 1
    ensures AnyWindow(haystack, needle, i) <==> exists j :: i <= j && OccursAt(haystack, needle, j)
    decreases |haystack| - i
  {
    hide OccursAt;
    NoRoomNoOccurrence(haystack, needle);
    if i + |needle| <= |haystack| {
      AnyWindowFinds(haystack, needle, i + 1);
      WindowOccurs(haystack, needle, i);
    }
  }

  lemma NoRoomNoOccurrence(haystack: string, needle: string)
    ensures forall j: nat :: OccursAt(haystack, needle, j) ==> j + |needle| <= |haystack|
  {}

  lemma WindowOccurs(haystack: string, needle: string, i: nat)
    requires i + |needle| <= |haystack|
    ensures (forall k :: 0 <= k < |needle| ==> LowerChar(haystack[i + k]) == needle[k]) <==> OccursAt(haystack, needle, i)
  {
    var window := Lower(haystack)[i..i + |needle|];
    assert forall k :: 0 <= k < |needle| ==> window[k] == LowerChar(haystack[i + k]);
  }

  /** `contains` is: the lower-cased text has the needle as a substring. */
  lemma ContainsIsSubstring(haystack: string, needle: string)
    ensures ContainsLower(haystack, needle) <==> exists j :: OccursAt(haystack, needle, j)
  {
    if needle == "" {
      assert OccursAt(haystack, needle, 0);
    } else if |haystack| >= |needle| {
      AnyWindowFinds(haystack, needle, 0);
    }
  }

  /** The texts of a packet that `contains` looks into, for each field. */
  ghost function TextsOf(f: Field, pkt: Packet): (texts: set<string>) {
    match f
    case IpSrc => {pkt.source}
    case IpDst => {pkt.destination}
    case IpAddr => {pkt.source, pkt.destination}
    case Proto => {pkt.protocol.name}
    case Info => {pkt.info}
    case EthSrc => TextIfAny(pkt.ethSrc)
    case EthDst => TextIfAny(pkt.ethDst)
    case EthAddr => TextIfAny(pkt.ethSrc) + TextIfAny(pkt.ethDst)
    case PfAction => if PfMeta(pkt).Some? then {pkt.linkMeta.value.action} else {}
    case PfDirection => if PfMeta(pkt).Some? then {pkt.linkMeta.value.direction} else {}
    case PfIfname => if PfMeta(pkt).Some? then {pkt.linkMeta.value.ifname} else {}
    case PfReason => if PfMeta(pkt).Some? then {pkt.linkMeta.value.reason} else {}
    case EncFlags => if EncMeta(pkt).Some? then {pkt.linkMeta.value.flagsText} else {}
    case _ => {}
  }

  ghost function TextIfAny(t: Option<string>): (texts: set<string>) {
    if t.Some? then {t.value} else {}
  }

  /** `f contains n` holds exactly if some text of the field has the needle as a substring, ignoring its case. */
  lemma ContainsLooksIntoTexts(os: Platform, f: Field, needle: string, pkt: Packet)
    ensures Matches(os, Contains(f, needle), pkt)
            <==> exists text, j :: text in TextsOf(f, pkt) && OccursAt(text, needle, j)
  {
    hide ContainsLower, OccursAt;
    forall text ensures ContainsLower(text, needle) <==> exists j :: OccursAt(text, needle, j) {
      ContainsIsSubstring(text, needle);
    }
  }

  // ----- Whether the comparisons fit together -----

  lemma {:induction false} StrLessIsTotal(a: string, b: string)
    ensures (StrLess(a, b) ==> !StrLess(b, a) && a != b) && (StrLess(a, b) || StrLess(b, a) || a == b)
  {
    if a != "" && b != "" && a[0] == b[0] {
      StrLessIsTotal(a[1..], b[1..]);
      assert a == [a[0]] + a[1..] && b == [b[0]] + b[1..];
    }
  }

  predicate ExactlyOneOf(a: bool, b: bool, c: bool) {
    (a && !b && !c) || (!a && b && !c) || (!a && !b && c)
  }

  /** Just one of `<`, `==` and `>` holds, and `<=`, `>=` and `!=` are what they should be. */
  predicate FitTogether(answer: CompareOp -> bool) {
    && ExactlyOneOf(answer(Lt), answer(Eq), answer(Gt))
    && answer(Le) == (answer(Lt) || answer(Eq)) && answer(Ge) == (answer(Gt) || answer(Eq))
    && answer(Ne) == !answer(Eq)
  }

  lemma TextComparisonsFit(s: string, v: Value)
    ensures FitTogether(op => CmpStr(s, op, v)) <==> !v.Cidr?
  {
    if !v.Cidr? {
      StrLessIsTotal(Lower(s), Lower(if v.Str? then v.text else Numerals.Decimal(v.number)));
    }
  }

  lemma NumberComparisonsFit(n: nat, v: Value)
    ensures FitTogether(op => CmpInt(n, op, v)) <==> NumericValue(v)
  {}

  /**
   * Addresses are ordered as numbers but equal as texts. So the comparisons of an address field fit together exactly if
   * the value is no CIDR and, for two addresses, being the same address and being the same text, ignoring case, come
   * to the same.
   */
  lemma AddressComparisonsFitIff(os: Platform, text: string, v: Value)
    ensures FitTogether(op => CmpIp(os, text, op, v))
            <==> && !v.Cidr?
                 && (v.Str? && os.parseIp(text).Some? && os.parseIp(v.text).Some? ==>
                       (os.parseIp(text) == os.parseIp(v.text) <==> Lower(text) == Lower(v.text)))
  {
    if !v.Cidr? {
      StrLessIsTotal(Lower(text), Lower(if v.Str? then v.text else Numerals.Decimal(v.number)));
    }
  }

  /** With two spellings of one address `<=` and `>=` hold, but neither `<` nor `>` nor `==`. */
  lemma TwoSpellingsCompare(os: Platform, text: string, s: string)
    requires os.parseIp(text).Some? && os.parseIp(text) == os.parseIp(s) && Lower(text) != Lower(s)
    ensures CmpIp(os, text, Le, Str(s)) && CmpIp(os, text, Ge, Str(s))
    ensures !CmpIp(os, text, Lt, Str(s)) && !CmpIp(os, text, Gt, Str(s)) && !CmpIp(os, text, Eq, Str(s))
  {}

  // ----- When `!=` is the opposite of `==` -----

  predicate NumericValue(v: Value) {
    v.Int? || (v.Str? && Numerals.ParseUnsigned(v.text, 10, 0xffff_ffff_ffff_ffff).Some?)
  }

  ghost function IntAnswer(n: Option<nat>, v: Value): (a: set<bool>) {
    if n.Some? && NumericValue(v) then {CmpInt(n.value, Eq, v)} else {}
  }

  ghost function StrAnswer(s: Option<string>, v: Value): (a: set<bool>) {
    if s.Some? && !v.Cidr? then {CmpStr(s.value, Eq, v)} else {}
  }

  /** The answers to "is it equal?" of those packet values that the field names and that `v` can be compared with. */
  ghost function EqualAnswers(os: Platform, f: Field, v: Value, pkt: Packet): (a: set<bool>) {
    match f
    case IpSrc => {CmpIp(os, pkt.source, Eq, v)}
    case IpDst => {CmpIp(os, pkt.destination, Eq, v)}
    case IpAddr => {CmpIp(os, pkt.source, Eq, v), CmpIp(os, pkt.destination, Eq, v)}
    case PortSrc => IntAnswer(pkt.srcPort, v)
    case PortDst => IntAnswer(pkt.dstPort, v)
    case Port => IntAnswer(pkt.srcPort, v) + IntAnswer(pkt.dstPort, v)
    case Proto => if v.Str? then {MatchesProtocol(pkt.protocol, v.text)} else {}
    case Len => IntAnswer(Some(pkt.originalLength), v)
    case Info => StrAnswer(Some(pkt.info), v)
    case EthSrc => StrAnswer(pkt.ethSrc, v)
    case EthDst => StrAnswer(pkt.ethDst, v)
    case EthAddr => StrAnswer(pkt.ethSrc, v) + StrAnswer(pkt.ethDst, v)
    case VlanId => IntAnswer(pkt.vlanId, v)
    case PfAction => if PfMeta(pkt).Some? then StrAnswer(Some(pkt.linkMeta.value.action), v) else {}
    case PfDirection => if PfMeta(pkt).Some? then StrAnswer(Some(pkt.linkMeta.value.direction), v) else {}
    case PfIfname => if PfMeta(pkt).Some? then StrAnswer(Some(pkt.linkMeta.value.ifname), v) else {}
    case PfRule => if PfMeta(pkt).Some? then IntAnswer(Some(pkt.linkMeta.value.ruleNumber), v) else {}
    case PfReason => if PfMeta(pkt).Some? then StrAnswer(Some(pkt.linkMeta.value.reason), v) else {}
    case EncSpi => if EncMeta(pkt).Some? then IntAnswer(Some(pkt.linkMeta.value.spi), v) else {}
    case EncFlags =>
      if EncMeta(pkt).None? then {}
      else if v.Str? then StrAnswer(Some(pkt.linkMeta.value.flagsText), v)
      else IntAnswer(Some(pkt.linkMeta.value.flags), v)
    case flag => IntAnswer(Some(pkt.tcpFlags / Pow2(FlagBit(flag)) % 2), v)
  }

  lemma NumberAnswers(n: nat, v: Value)
    ensures CmpInt(n, Eq, v) ==> NumericValue(v)
    ensures CmpInt(n, Ne, v) <==> NumericValue(v) && !CmpInt(n, Eq, v)
  {}

  lemma TextAnswers(s: string, v: Value)
    ensures CmpStr(s, Eq, v) ==> !v.Cidr?
    ensures CmpStr(s, Ne, v) <==> !v.Cidr? && !CmpStr(s, Eq, v)
  {}

  lemma AddressAnswers(os: Platform, s: string, v: Value)
    ensures CmpIp(os, s, Ne, v) <==> !CmpIp(os, s, Eq, v)
  {}

  lemma NotEqualAnswers(os: Platform, f: Field, v: Value, pkt: Packet)
    ensures EvalCompare(os, f, Eq, v, pkt) <==> true in EqualAnswers(os, f, v, pkt)
    ensures EvalCompare(os, f, Ne, v, pkt) <==> false in EqualAnswers(os, f, v, pkt)
  {
    hide CmpInt, CmpStr, CmpIp, MatchesProtocol, FlagBit;
    forall n: nat { NumberAnswers(n, v); }
    forall s: string { TextAnswers(s, v); }
    forall s: string { AddressAnswers(os, s, v); }
  }

  /**
   * `f != v` is not in general the opposite of `f == v`: it is exactly when at least one value of the packet can be
   * compared with `v` and all of those give the same answer.
   */
  lemma NotEqualIsOppositeIff(os: Platform, f: Field, v: Value, pkt: Packet)
    ensures Matches(os, Compare(f, Ne, v), pkt) == !Matches(os, Compare(f, Eq, v), pkt)
            <==> exists answer :: EqualAnswers(os, f, v, pkt) == {answer}
  {
    hide EvalCompare;
    NotEqualAnswers(os, f, v, pkt);
    ExactlyOne(EqualAnswers(os, f, v, pkt));
  }

  /** Both tests of a port hold of a packet between that port and another one. */
  lemma OnePortOfTwo(os: Platform, pkt: Packet, n: u64, m: nat)
    requires m != n
    requires (pkt.srcPort == Some(m) && pkt.dstPort == Some(n)) || (pkt.srcPort == Some(n) && pkt.dstPort == Some(m))
    ensures Matches(os, Compare(Port, Eq, Int(n)), pkt) && Matches(os, Compare(Port, Ne, Int(n)), pkt)
  {}

  /** No comparison of a port holds of a packet without ports. */
  lemma NoPorts(os: Platform, pkt: Packet, op: CompareOp, v: Value)
    requires pkt.srcPort.None? && pkt.dstPort.None?
    ensures !Matches(os, Compare(Port, op, v), pkt)
  {}

  lemma ExactlyOne(a: set<bool>)
    ensures (true in a) != (false in a) <==> exists answer :: a == {answer}
  {
    forall b: bool ensures a == {b} <==> b in a && !b !in a {
      assert forall x :: x in a ==> x == b || x == !b;
    }
    if exists answer :: a == {answer} {
      var answer :| a == {answer};
      assert answer in a && !answer !in a;
    }
  }
}
