/** ACL records and the builders that turn a port, a subnet or a security-group
    rule into them: the default drop rules of a port, the DHCP allow rules, the
    allow-related rule of a security-group rule, and the protocol/port part of a
    rule's match expression. Match expressions are plain strings built by
    concatenation; addresses and CIDRs are opaque strings. */
module Acl {
  import opened Common
  import opened Identity

  const ACL_PRIORITY_ALLOW: int := 1002
  const ACL_PRIORITY_DROP: int := 1001
  const ACL_ACTION_DROP: string := "drop"
  const ACL_ACTION_ALLOW: string := "allow"
  const ACL_ACTION_ALLOW_RELATED: string := "allow-related"
  /** The external-ids key that tags an ACL with the port it was made for. */
  const LPORT_EXT_ID_KEY: string := "neutron:lport"

  /** Direction of an ACL, as seen from the logical switch. */
  datatype Direction = ToLport | FromLport
  {
    /** The direction column's value. */
    function Name(): string
    {
      if ToLport? then "to-lport" else "from-lport"
    }

    /** The match field that names the port traffic leaves (to-lport) or enters by
        (from-lport). */
    function PortField(): string
    {
      if ToLport? then "outport" else "inport"
    }
  }

  datatype Port = Port(id: string, networkId: string)

  datatype Subnet = Subnet(id: string, cidr: string)

  /** A security-group rule: only the columns the builders read. */
  datatype SgRule = SgRule(
    direction: string,
    protocol: Option<string>,
    portRangeMin: Option<int>,
    portRangeMax: Option<int>)

  /** An ACL record as the builders produce it. */
  datatype Acl = Acl(
    lswitch: string,
    lport: string,
    priority: int,
    action: string,
    log: bool,
    direction: Direction,
    matchExpr: string,
    externalIds: map<string, string>)

  /** The five fields that decide whether two ACL records are the same rule. */
  datatype AclKey = AclKey(
    priority: int,
    direction: Direction,
    lport: string,
    lswitch: string,
    matchExpr: string)

  function Key(a: Acl): AclKey
  {
    AclKey(a.priority, a.direction, a.lport, a.lswitch, a.matchExpr)
  }

  function LportExtIds(portId: string): map<string, string>
  {
    map[LPORT_EXT_ID_KEY := portId]
  }

  /** The start of a match expression that names a port: `inport == "` or
      `outport == "`, followed by the port id and a closing quote. */
  function PortHead(d: Direction): (head: string)
    ensures head == if d.ToLport? then "outport == \"" else "inport == \""
  {
    d.PortField() + " == \""
  }

  /** The term of a match expression that names a port: `inport == "<id>"` or
      `outport == "<id>"`. */
  function PortMatch(d: Direction, portId: string): (m: string)
    ensures m == (if d.ToLport? then "outport == \"" else "inport == \"") + portId + "\""
  {
    PortHead(d) + portId + "\""
  }

  // ---------------------------------------------------------------------------
  // Default drop rules

  function DropAcl(port: Port, d: Direction): Acl
  {
    Acl(OvnName(port.networkId), port.id, ACL_PRIORITY_DROP, ACL_ACTION_DROP, false,
        d, PortMatch(d, port.id) + " && ip", LportExtIds(port.id))
  }

  /** Two drop rules that stop all IP traffic of a port, one per direction. */
  function DropAllIpTrafficForPort(port: Port): (acls: seq<Acl>)
    ensures |acls| == 2
    ensures acls[0].direction == FromLport && acls[1].direction == ToLport
    ensures acls[0].matchExpr == PortMatch(FromLport, port.id) + " && ip"
    ensures acls[1].matchExpr == PortMatch(ToLport, port.id) + " && ip"
    ensures forall a <- acls ::
      && a.action == "drop" && a.priority == 1001 && !a.log
      && a.lswitch == "neutron-" + port.networkId && a.lport == port.id
      && a.externalIds == map["neutron:lport" := port.id]
  {
    [DropAcl(port, FromLport), DropAcl(port, ToLport)]
  }

  // ---------------------------------------------------------------------------
  // DHCP allow rules

  /** Two allow rules for DHCP: replies from the subnet's server to the port, and
      the port's requests, broadcast or to the subnet. */
  function AddAclDhcp(port: Port, subnet: Subnet): (acls: seq<Acl>)
    ensures |acls| == 2
    ensures acls[0].direction == ToLport && acls[1].direction == FromLport
    ensures acls[0].matchExpr ==
      PortMatch(ToLport, port.id) + " && ip4 && ip4.src == " + subnet.cidr
      + " && udp && udp.src == 67 && udp.dst == 68"
    ensures acls[1].matchExpr ==
      PortMatch(FromLport, port.id) + " && ip4 && (ip4.dst == 255.255.255.255 || ip4.dst == "
      + subnet.cidr + ") && udp && udp.src == 68 && udp.dst == 67"
    ensures forall a <- acls ::
      && a.action == "allow" && a.priority == 1002 && !a.log
      && a.lswitch == "neutron-" + port.networkId && a.lport == port.id
      && a.externalIds == map["neutron:lport" := port.id]
  {
    var toLport := PortMatch(ToLport, port.id) + " && ip4 && ip4.src == " + subnet.cidr
      + " && udp && udp.src == 67 && udp.dst == 68";
    var fromLport := PortMatch(FromLport, port.id)
      + " && ip4 && (ip4.dst == 255.255.255.255 || ip4.dst == " + subnet.cidr
      + ") && udp && udp.src == 68 && udp.dst == 67";
    [Acl(OvnName(port.networkId), port.id, ACL_PRIORITY_ALLOW, ACL_ACTION_ALLOW, false,
         ToLport, toLport, LportExtIds(port.id)),
     Acl(OvnName(port.networkId), port.id, ACL_PRIORITY_ALLOW, ACL_ACTION_ALLOW, false,
         FromLport, fromLport, LportExtIds(port.id))]
  }

  // ---------------------------------------------------------------------------
  // A security-group rule as an ACL

  /** The ACL direction of a rule direction; a value outside the two is a missing
      dictionary key. */
  function AclDirection(ruleDirection: string): Option<Direction>
  {
    if ruleDirection == "ingress" then Some(ToLport)
    else if ruleDirection == "egress" then Some(FromLport)
    else None
  }

  /** The rule direction an ACL direction comes from. */
  function RuleDirection(d: Direction): string
  {
    if d.ToLport? then "ingress" else "egress"
  }

  /** The direction map is a bijection between {ingress, egress} and the two ACL
      directions. */
  lemma AclDirectionBijection(d: Direction, ruleDirection: string)
    ensures AclDirection(RuleDirection(d)) == Some(d)
    ensures AclDirection(ruleDirection) == Some(d) ==> ruleDirection == RuleDirection(d)
  {
  }

  /** The allow-related ACL of a security-group rule, with the match the caller
      computed; None (KeyError) for a direction other than ingress or egress. */
  function AddSgRuleAclForPort(port: Port, rule: SgRule, matchExpr: string): (acl: Option<Acl>)
    ensures acl.Some? <==> rule.direction == "ingress" || rule.direction == "egress"
    ensures acl.Some? ==>
      && acl.value.direction == (if rule.direction == "ingress" then ToLport else FromLport)
      && acl.value.matchExpr == matchExpr
      && acl.value.priority == ACL_PRIORITY_ALLOW
      && acl.value.action == ACL_ACTION_ALLOW_RELATED
      && !acl.value.log
      && acl.value.lswitch == "neutron-" + port.networkId
      && acl.value.lport == port.id
      && acl.value.externalIds == map["neutron:lport" := port.id]
  {
    match AclDirection(rule.direction)
    case None => None
    case Some(d) =>
      Some(Acl(OvnName(port.networkId), port.id, ACL_PRIORITY_ALLOW,
               ACL_ACTION_ALLOW_RELATED, false, d, matchExpr, LportExtIds(port.id)))
  }

  // ---------------------------------------------------------------------------
  // Which port a match expression names

  /** The characters of s before the first double quote. */
  function UpToQuote(s: string): string
  {
    if s == [] || s[0] == '"' then [] else [s[0]] + UpToQuote(s[1..])
  }

  /** UpToQuote recovers an id that contains no quote and is followed by one. */
  lemma {:induction false} UpToQuoteOf(s: string, id: string)
    requires '"' !in id
    requires |id| < |s| && s[..|id|] == id && s[|id|] == '"'
    ensures UpToQuote(s) == id
  {
    if id != [] {
      assert s[0] == id[0];
      assert s[1..][..|id| - 1] == id[1..];
      UpToQuoteOf(s[1..], id[1..]);
    }
  }

  /** The direction and port named by the leading `inport == "<id>"` or
      `outport == "<id>"` of a match expression. */
  function MatchedPort(m: string): Option<(Direction, string)>
  {
    var fromHead := FromLport.PortField() + " == \"";
    var toHead := ToLport.PortField() + " == \"";
    if fromHead <= m then Some((FromLport, UpToQuote(m[|fromHead|..])))
    else if toHead <= m then Some((ToLport, UpToQuote(m[|toHead|..])))
    else None
  }

  /** A match that starts with the term naming a quote-free port id names that
      port. */
  lemma PortMatchIsMatched(d: Direction, portId: string, m: string)
    requires '"' !in portId
    requires PortMatch(d, portId) <= m
    ensures MatchedPort(m) == Some((d, portId))
  {
    var head := PortHead(d);
    var pm := PortMatch(d, portId);
    assert pm == head + portId + "\"";
    assert m[..|pm|] == pm;
    assert m[..|head|] == pm[..|head|] == head;
    var rest := m[|head|..];
    assert rest[..|portId|] == pm[|head|..|head| + |portId|] == portId;
    assert rest[|portId|] == pm[|head| + |portId|] == '"';
    UpToQuoteOf(rest, portId);
    if d.ToLport? {
      assert m[0] == 'o';
    }
  }

  /** Each drop record's match names the port on the side its direction says. */
  lemma DropMatchesNameTheirPort(port: Port)
    requires '"' !in port.id
    ensures forall a <- DropAllIpTrafficForPort(port) ::
      MatchedPort(a.matchExpr) == Some((a.direction, a.lport))
  {
    var drops := DropAllIpTrafficForPort(port);
    PortMatchIsMatched(FromLport, port.id, drops[0].matchExpr);
    PortMatchIsMatched(ToLport, port.id, drops[1].matchExpr);
  }

  /** A string is a prefix of itself followed by three more pieces. */
  lemma PrefixOfAppends(a: string, b: string, c: string, d: string)
    ensures a <= a + b + c + d
  {
    assert (a + b + c + d)[..|a|] == a;
  }

  /** Each DHCP record's match names the port on the side its direction says. */
  lemma DhcpMatchesNameTheirPort(port: Port, subnet: Subnet)
    requires '"' !in port.id
    ensures forall a <- AddAclDhcp(port, subnet) ::
      MatchedPort(a.matchExpr) == Some((a.direction, a.lport))
  {
    var dhcp := AddAclDhcp(port, subnet);
    PrefixOfAppends(PortMatch(ToLport, port.id), " && ip4 && ip4.src == ", subnet.cidr,
                    " && udp && udp.src == 67 && udp.dst == 68");
    PortMatchIsMatched(ToLport, port.id, dhcp[0].matchExpr);
    PrefixOfAppends(PortMatch(FromLport, port.id), " && ip4 && (ip4.dst == 255.255.255.255 || ip4.dst == ",
                    subnet.cidr, ") && udp && udp.src == 68 && udp.dst == 67");
    PortMatchIsMatched(FromLport, port.id, dhcp[1].matchExpr);
  }

  /** The four rules a port gets by default are four different rules: no two
      share the five identity fields. */
  lemma DefaultRulesAreDistinct(port: Port, subnet: Subnet)
    ensures Distinct(seq(4, i requires 0 <= i < 4 =>
      Key((DropAllIpTrafficForPort(port) + AddAclDhcp(port, subnet))[i])))
  {
    var acls := DropAllIpTrafficForPort(port) + AddAclDhcp(port, subnet);
    assert acls[0].priority == acls[1].priority == 1001;
    assert acls[2].priority == acls[3].priority == 1002;
  }

  // ---------------------------------------------------------------------------
  // Decimal rendering of port numbers ('%d')

  function DigitChar(d: nat): char
    requires d < 10
  {
    "0123456789"[d]
  }

  function NatToString(n: nat): string
    decreases n
  {
    if n < 10 then [DigitChar(n)] else NatToString(n / 10) + [DigitChar(n % 10)]
  }

  function IntToString(n: int): string
  {
    if n < 0 then "-" + NatToString(-n) else NatToString(n)
  }

  /** The value of a string of decimal digits. */
  function ParseNat(s: string): nat
  {
    if s == [] then 0
    else
      var c := s[|s| - 1];
      var d := if '0' <= c <= '9' then c as int - '0' as int else 0;
      ParseNat(s[..|s| - 1]) * 10 + d
  }

  /** The rendering is read back as the number it renders, and uses digits only. */
  lemma {:induction false} NatToStringRoundTrip(n: nat)
    ensures ParseNat(NatToString(n)) == n
    ensures forall i :: 0 <= i < |NatToString(n)| ==> '0' <= NatToString(n)[i] <= '9'
    decreases n
  {
    if n >= 10 {
      NatToStringRoundTrip(n / 10);
      var s := NatToString(n);
      assert s[..|s| - 1] == NatToString(n / 10);
    }
  }

  // ---------------------------------------------------------------------------
  // The protocol and port-range part of a match

  const PROTO_NUM_TCP: string := "6"
  const PROTO_NUM_UDP: string := "17"
  /** Every name and number under which a rule can ask for ICMP:
      icmp, ipv6-icmp, the legacy icmpv6, and the protocol numbers 1 and 58. */
  const ICMP_ALIASES: set<string> := {"icmp", "ipv6-icmp", "icmpv6", "1", "58"}

  /** The protocol keyword a rule matches on and the field its port bounds
      constrain; None when the rule yields no protocol term (no protocol, an
      unknown one, or ICMP while the caller passes no ICMP keyword). */
  function ProtocolTerm(protocol: Option<string>, icmp: Option<string>): Option<(string, string)>
  {
    if protocol == Some(PROTO_NUM_TCP) then Some(("tcp", "tcp.dst"))
    else if protocol == Some(PROTO_NUM_UDP) then Some(("udp", "udp.dst"))
    else if protocol == Some("tcp") || protocol == Some("udp") then
      Some((protocol.value, protocol.value + ".dst"))
    else if protocol.Some? && protocol.value in ICMP_ALIASES && icmp.Some? && icmp.value != "" then
      Some((icmp.value, icmp.value + ".type"))
    else None
  }

  /** A port bound that is set: not None, not 0 (falsy) and not -1 ("any"). */
  predicate PortBound(p: Option<int>)
  {
    p.Some? && p.value != 0 && p.value != -1
  }

  /** The port-range terms of a match, as this model renders them: one `==`
      term for equal set bounds, otherwise a `>=` term for a set lower bound
      and a `<=` term for a set upper bound. */
  function PortRangeTerm(field: string, lo: Option<int>, hi: Option<int>): string
  {
    if PortBound(lo) && hi == lo then " && " + field + " == " + IntToString(lo.value)
    else
      (if PortBound(lo) then " && " + field + " >= " + IntToString(lo.value) else "")
      + (if PortBound(hi) then " && " + field + " <= " + IntToString(hi.value) else "")
  }

  /** The protocol and port-range terms of a rule's match. */
  function AclProtocolAndPorts(rule: SgRule, icmp: Option<string>): (m: string)
    ensures m == "" <==> ProtocolTerm(rule.protocol, icmp).None?
    ensures ProtocolTerm(rule.protocol, icmp).Some? ==>
      " && " + ProtocolTerm(rule.protocol, icmp).value.0 <= m
  {
    match ProtocolTerm(rule.protocol, icmp)
    case None => ""
    case Some((proto, field)) =>
      assert (" && " + proto + PortRangeTerm(field, rule.portRangeMin, rule.portRangeMax))[..4 + |proto|]
        == " && " + proto;
      " && " + proto + PortRangeTerm(field, rule.portRangeMin, rule.portRangeMax)
  }

  /** Protocol numbers 6 and 17 give the same match as the names tcp and udp. */
  lemma ProtocolNumbersAsNames(rule: SgRule, icmp: Option<string>)
    ensures AclProtocolAndPorts(rule.(protocol := Some("6")), icmp)
         == AclProtocolAndPorts(rule.(protocol := Some("tcp")), icmp)
    ensures AclProtocolAndPorts(rule.(protocol := Some("17")), icmp)
         == AclProtocolAndPorts(rule.(protocol := Some("udp")), icmp)
  {
    assert "tcp" + ".dst" == "tcp.dst" && "udp" + ".dst" == "udp.dst";
    assert ProtocolTerm(Some("tcp"), icmp) == Some(("tcp", "tcp.dst"));
    assert ProtocolTerm(Some("udp"), icmp) == Some(("udp", "udp.dst"));
  }

  /** Every ICMP alias gives the same match, the one of the caller's ICMP keyword. */
  lemma IcmpAliasesAgree(rule: SgRule, icmp: Option<string>, a: string, b: string)
    requires a in ICMP_ALIASES && b in ICMP_ALIASES
    ensures AclProtocolAndPorts(rule.(protocol := Some(a)), icmp)
         == AclProtocolAndPorts(rule.(protocol := Some(b)), icmp)
  {
  }

  /** Without port bounds the match is the protocol keyword alone: " && tcp" for
      "6", " && udp" for "17", and " && icmp6" for every ICMP alias when the
      caller asks for icmp6. */
  lemma NoPortRangeMatches(rule: SgRule, alias: string)
    requires !PortBound(rule.portRangeMin) && !PortBound(rule.portRangeMax)
    requires alias in ICMP_ALIASES
    ensures AclProtocolAndPorts(rule.(protocol := Some("6")), None) == " && tcp"
    ensures AclProtocolAndPorts(rule.(protocol := Some("17")), None) == " && udp"
    ensures AclProtocolAndPorts(rule.(protocol := Some(alias)), Some("icmp6")) == " && icmp6"
  {
    assert PortRangeTerm("tcp.dst", rule.portRangeMin, rule.portRangeMax) == "";
    assert PortRangeTerm("udp.dst", rule.portRangeMin, rule.portRangeMax) == "";
    assert PortRangeTerm("icmp6.type", rule.portRangeMin, rule.portRangeMax) == "";
  }

  /** A range of one port matches that port exactly, and the number in the match
      reads back as the port. */
  lemma SinglePortMatch(rule: SgRule, p: nat)
    requires rule.protocol == Some("6")
    requires rule.portRangeMin == rule.portRangeMax == Some(p as int) && p != 0
    ensures AclProtocolAndPorts(rule, None) == " && tcp && tcp.dst == " + NatToString(p)
    ensures ParseNat(NatToString(p)) == p
  {
    NatToStringRoundTrip(p);
  }
}
