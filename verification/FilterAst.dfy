/** The display-filter language: expressions, tokens and the text primitives the filter code takes from Rust. */
module FilterAst {
  import opened Prelude

  type u32 = x: int | 0 <= x < 0x1_0000_0000
  type u64 = x: int | 0 <= x < 0x1_0000_0000_0000_0000
  type u128 = x: int | 0 <= x < 0x1_0000_0000_0000_0000_0000_0000_0000_0000

  datatype Field =
    | IpSrc | IpDst | IpAddr | PortSrc | PortDst | Port | Proto | Len | Info
    | EthSrc | EthDst | EthAddr | VlanId
    | TcpFlagSyn | TcpFlagAck | TcpFlagFin | TcpFlagRst | TcpFlagPsh | TcpFlagUrg
    | PfAction | PfDirection | PfIfname | PfRule | PfReason
    | EncSpi | EncFlags
  {
    predicate IsBoolean() {
      TcpFlagSyn? || TcpFlagAck? || TcpFlagFin? || TcpFlagRst? || TcpFlagPsh? || TcpFlagUrg?
    }
  }

  datatype CompareOp = Eq | Ne | Gt | Lt | Ge | Le

  datatype Address = V4(v4: u32) | V6(v6: u128) {
    function Width(): (w: nat) {
      if V4? then 32 else 128
    }
  }

  datatype Value = Str(text: string) | Int(number: u64) | Cidr(addr: Address, prefixLen: nat)

  datatype Expr =
    | Compare(field: Field, op: CompareOp, value: Value)
    | Contains(field: Field, needle: string)
    | ProtoMatch(name: string)
    | BareField(field: Field)
    | And(left: Expr, right: Expr)
    | Or(left: Expr, right: Expr)
    | Not(inner: Expr)

  datatype Token =
    | TokField(field: Field)
    | TokOp(op: CompareOp)
    | TokContains
    | TokAnd
    | TokOr
    | TokNot
    | TokLParen
    | TokRParen
    | TokStr(text: string)
    | TokInt(number: u64)

  function LowerChar(c: char): (l: char) {
    if 'A' <= c <= 'Z' then (c as int + 32) as char else c
  }

  /** `to_ascii_lowercase`. */
  function Lower(s: string): (l: string)
    ensures |l| == |s|
    ensures forall i :: 0 <= i < |s| ==> l[i] == LowerChar(s[i])
  {
    seq(|s|, i requires 0 <= i < |s| => LowerChar(s[i]))
  }

  const ProtocolNames: set<string> := {
    "tcp", "udp", "icmp", "icmpv6", "arp", "dns", "http",
    "tls", "https", "ssh", "smtp", "ftp", "telnet",
    "rdp", "bgp", "ldap", "dhcp", "ntp", "snmp",
    "syslog", "tftp", "mdns", "radius",
    "ipv4", "ip", "ipv6", "ethernet", "eth",
    "pflog", "pf", "enc", "ipsec"
  }

  /** `Protocol::is_known_name`. */
  predicate IsKnownProtocol(s: string) {
    Lower(s) in ProtocolNames
  }

  predicate IsAsciiAlnum(c: char) {
    '0' <= c <= '9' || 'a' <= c <= 'z' || 'A' <= c <= 'Z'
  }

  /**
   * What the filter code takes from Rust's standard library: the Unicode character classes, and the text form of
   * IP addresses. Everything below holds for every choice that obeys `Lawful`.
   */
  datatype Platform = Platform(
    isSpace: char -> bool,
    isAlnum: char -> bool,
    parseIp: string -> Option<Address>,
    printIp: Address -> string)
  {
    predicate IsWordChar(c: char) {
      isAlnum(c) || c == '_' || c == '.' || c == ':' || c == '/'
    }

    ghost predicate Lawful() {
      && (forall c: char :: c as int < 128 ==> isAlnum(c) == IsAsciiAlnum(c))
      && (forall c: char :: c as int < 128 ==> isSpace(c) == (c == ' ' || '\t' <= c <= '\r'))
      && (forall c: char :: isAlnum(c) ==> !isSpace(c))
      && (forall a: Address :: parseIp(printIp(a)) == Some(a))
      && (forall a: Address, i: nat :: i < |printIp(a)| ==> printIp(a)[i] != '/' && IsWordChar(printIp(a)[i]))
    }
  }
}
