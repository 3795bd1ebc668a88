/**
  Flow keys as Netlink attributes (datapath/flow.c): the kernel writes a flow's key as
  nested attributes and reads keys in the same form from user space.  The header
  fields that share storage in struct sw_flow_key are kept apart here.
 */
module FlowNetlink {
  import opened Collections

  const U8: nat := 0x100
  const U16: nat := 0x1_0000
  const U32: nat := 0x1_0000_0000
  const U48: nat := 0x1_0000_0000_0000
  const U64: nat := 0x1_0000_0000_0000_0000
  const U128: nat := 0x1_0000_0000_0000_0000_0000_0000_0000_0000

  // ---------------------------------------------------------- flow keys

  /** struct ovs_key_ipv4_tunnel; 'flags' are the tunnel flags other than the three
      that have an attribute. */
  datatype Tun = Tun(id: nat, src: nat, dst: nat, tos: nat, ttl: nat, hasKey: bool, df: bool, csum: bool, flags: nat)

  datatype Phy = Phy(priority: nat, mark: nat, inPort: nat)

  datatype Eth = Eth(src: nat, dst: nat, tci: nat, etherType: nat)

  datatype Ip = Ip(proto: nat, tos: nat, ttl: nat, frag: nat)

  datatype Tp = Tp(src: nat, dst: nat, flags: nat)

  datatype V4 = V4(src: nat, dst: nat, tp: Tp, sha: nat, tha: nat)

  datatype Nd = Nd(target: nat, sll: nat, tll: nat)

  datatype V6 = V6(src: nat, dst: nat, flowLabel: nat, tp: Tp, nd: Nd)

  /** struct sw_flow_key. */
  datatype Key = Key(tun: Tun, phy: Phy, eth: Eth, ip: Ip, v4: V4, v6: V6)

  const NO_TUN := Tun(0, 0, 0, 0, 0, false, false, false, 0)
  const NO_TP := Tp(0, 0, 0)
  const NO_ND := Nd(0, 0, 0)

  /** Every field fits its width. */
  predicate WidthsOk(k: Key) {
    && k.tun.id < U64 && k.tun.src < U32 && k.tun.dst < U32 && k.tun.tos < U8 && k.tun.ttl < U8
    && k.phy.priority < U32 && k.phy.mark < U32 && k.phy.inPort < U16
    && k.eth.src < U48 && k.eth.dst < U48 && k.eth.tci < U16 && k.eth.etherType < U16
    && k.ip.proto < U8 && k.ip.tos < U8 && k.ip.ttl < U8 && k.ip.frag < U8
    && k.v4.src < U32 && k.v4.dst < U32 && TpOk(k.v4.tp) && k.v4.sha < U48 && k.v4.tha < U48
    && k.v6.src < U128 && k.v6.dst < U128 && k.v6.flowLabel < U32 && TpOk(k.v6.tp)
    && k.v6.nd.target < U128 && k.v6.nd.sll < U48 && k.v6.nd.tll < U48
  }

  predicate TpOk(tp: Tp) {
    tp.src < U16 && tp.dst < U16 && tp.flags < U16
  }

  const DP_MAX_PORTS: nat := 0xffff
  const VLAN_TAG_PRESENT: nat := 0x1000
  const ETH_P_802_2: nat := 0x0004
  const ETH_P_802_3_MIN: nat := 0x0600
  const ETH_P_IP: nat := 0x0800
  const ETH_P_ARP: nat := 0x0806
  const ETH_P_RARP: nat := 0x8035
  const ETH_P_8021Q: nat := 0x8100
  const ETH_P_IPV6: nat := 0x86dd
  const IPPROTO_ICMP: nat := 1
  const IPPROTO_TCP: nat := 6
  const IPPROTO_UDP: nat := 17
  const IPPROTO_ICMPV6: nat := 58
  const IPPROTO_SCTP: nat := 132
  const NEIGHBOUR_SOLICITATION: nat := 135
  const NEIGHBOUR_ADVERTISEMENT: nat := 136
  const FRAG_LATER: nat := 2
  const FRAG_MAX: nat := 2

  predicate TagPresent(tci: nat) {
    tci / VLAN_TAG_PRESENT % 2 == 1
  }

  // ---------------------------------------------------------- attributes

  datatype Body = Fields(values: seq<nat>) | Nest(attrs: seq<Attr>)

  datatype Attr = Attr(kind: nat, body: Body)

  const ENCAP: nat := 1
  const PRIORITY: nat := 2
  const IN_PORT: nat := 3
  const ETHERNET: nat := 4
  const VLAN: nat := 5
  const ETHERTYPE: nat := 6
  const IPV4: nat := 7
  const IPV6: nat := 8
  const TCP: nat := 9
  const UDP: nat := 10
  const ICMP: nat := 11
  const ICMPV6: nat := 12
  const ARP: nat := 13
  const ND: nat := 14
  const SKB_MARK: nat := 15
  const TUNNEL: nat := 16
  const SCTP: nat := 17
  const TCP_FLAGS: nat := 63
  const KEY_ATTR_MAX: nat := 63

  /** ovs_key_lens[], as the limits of an attribute's fields. */
  function Limits(kind: nat): seq<nat> {
    if kind in {PRIORITY, IN_PORT, SKB_MARK} then [U32]
    else if kind == ETHERNET then [U48, U48]
    else if kind in {VLAN, ETHERTYPE, TCP_FLAGS} then [U16]
    else if kind == IPV4 then [U32, U32, U8, U8, U8, U8]
    else if kind == IPV6 then [U128, U128, U32, U8, U8, U8, U8]
    else if kind in {TCP, UDP, SCTP} then [U16, U16]
    else if kind in {ICMP, ICMPV6} then [U8, U8]
    else if kind == ARP then [U32, U32, U16, U48, U48]
    else if kind == ND then [U128, U48, U48]
    else []
  }

  predicate Fits(values: seq<nat>, limits: seq<nat>) {
    |values| == |limits| && forall i | 0 <= i < |values| :: values[i] < limits[i]
  }

  predicate BodyOk(kind: nat, body: Body) {
    if kind == ENCAP || kind == TUNNEL then body.Nest? else body.Fields? && Fits(body.values, Limits(kind))
  }

  type Attrs = map<nat, Body>

  ghost predicate Shaped(a: Attrs) {
    forall kind | kind in a :: BodyOk(kind, a[kind])
  }

  // ------------------------------------------------------------- parsing

  /** __parse_flow_nlattrs() for a key: no unknown kind, no kind twice, no payload of
      the wrong length. */
  function ParseList(attrs: seq<Attr>, a: Attrs): Option<Attrs> {
    if attrs == [] then Some(a)
    else
      var x := attrs[0];
      if x.kind > KEY_ATTR_MAX || x.kind in a || !BodyOk(x.kind, x.body) then None
      else ParseList(attrs[1..], a[x.kind := x.body])
  }

  lemma {:induction false} ParseListShaped(attrs: seq<Attr>, a: Attrs)
    requires Shaped(a)
    ensures ParseList(attrs, a).Some? ==> Shaped(ParseList(attrs, a).value)
    decreases |attrs|
  {
    if attrs != [] {
      var x := attrs[0];
      if x.kind <= KEY_ATTR_MAX && x.kind !in a && BodyOk(x.kind, x.body) {
        ParseListShaped(attrs[1..], a[x.kind := x.body]);
      }
    }
  }

  method ParseNested(attrs: seq<Attr>, a: Attrs) returns (r: Option<Attrs>)
    ensures r == ParseList(attrs, a)
  {
    var found: Attrs := a;
    var i := 0;
    assert attrs[0..] == attrs;
    while i < |attrs|
      invariant 0 <= i <= |attrs|
      invariant ParseList(attrs[i..], found) == ParseList(attrs, a)
    {
      var x := attrs[i];
      assert attrs[i..][0] == x && attrs[i..][1..] == attrs[i + 1..];
      if x.kind > KEY_ATTR_MAX || x.kind in found || !BodyOk(x.kind, x.body) {
        return None;
      }
      found := found[x.kind := x.body];
      i := i + 1;
    }
    r := Some(found);
  }

  // --------------------------------------------------------- the tunnel key

  const TUN_ID: nat := 0
  const TUN_SRC: nat := 1
  const TUN_DST: nat := 2
  const TUN_TOS: nat := 3
  const TUN_TTL: nat := 4
  const TUN_DF: nat := 5
  const TUN_CSUM: nat := 6

  function TunLimits(kind: nat): seq<nat> {
    if kind == TUN_ID then [U64]
    else if kind == TUN_SRC || kind == TUN_DST then [U32]
    else if kind == TUN_TOS || kind == TUN_TTL then [U8]
    else []
  }

  /** The tunnel key so far, and whether a TTL has been seen. */
  datatype TunState = TunState(tun: Tun, ttl: bool)

  predicate TunBodyOk(x: Attr) {
    x.kind <= TUN_CSUM && x.body.Fields? && Fits(x.body.values, TunLimits(x.kind))
  }

  function TunPut(s: TunState, x: Attr): TunState
    requires TunBodyOk(x)
  {
    if x.kind == TUN_ID then s.(tun := s.tun.(id := x.body.values[0], hasKey := true))
    else if x.kind == TUN_SRC then s.(tun := s.tun.(src := x.body.values[0]))
    else if x.kind == TUN_DST then s.(tun := s.tun.(dst := x.body.values[0]))
    else if x.kind == TUN_TOS then s.(tun := s.tun.(tos := x.body.values[0]))
    else if x.kind == TUN_TTL then TunState(s.tun.(ttl := x.body.values[0]), true)
    else if x.kind == TUN_DF then s.(tun := s.tun.(df := true))
    else s.(tun := s.tun.(csum := true))
  }

  function TunScan(attrs: seq<Attr>, s: TunState): Option<TunState> {
    if attrs == [] then Some(s)
    else if !TunBodyOk(attrs[0]) then None
    else TunScan(attrs[1..], TunPut(s, attrs[0]))
  }

  /** ovs_ipv4_tun_from_nlattr() for a key. */
  function ParseTun(attrs: seq<Attr>): Option<Tun> {
    match TunScan(attrs, TunState(NO_TUN, false))
    case None => None
    case Some(s) => if s.tun.dst == 0 || !s.ttl then None else Some(s.tun)
  }

  method ScanTunnel(attrs: seq<Attr>) returns (r: Option<Tun>)
    ensures r == ParseTun(attrs)
  {
    var s := TunState(NO_TUN, false);
    var i := 0;
    assert attrs[0..] == attrs;
    while i < |attrs|
      invariant 0 <= i <= |attrs|
      invariant TunScan(attrs[i..], s) == TunScan(attrs, TunState(NO_TUN, false))
    {
      assert attrs[i..][0] == attrs[i] && attrs[i..][1..] == attrs[i + 1..];
      if !TunBodyOk(attrs[i]) {
        return None;
      }
      s := TunPut(s, attrs[i]);
      i := i + 1;
    }
    r := if s.tun.dst == 0 || !s.ttl then None else Some(s.tun);
  }

  function If(c: bool, kind: nat, values: seq<nat>): seq<Attr> {
    if c then [Attr(kind, Fields(values))] else []
  }

  /** ovs_ipv4_tun_to_nlattr(), up to the destination and from there on. */
  function TunAttrs(t: Tun): seq<Attr> {
    If(t.hasKey, TUN_ID, [t.id]) + (If(t.src != 0, TUN_SRC, [t.src]) + (If(t.dst != 0, TUN_DST, [t.dst]) + TunTail(t)))
  }

  function TunTail(t: Tun): seq<Attr> {
    If(t.tos != 0, TUN_TOS, [t.tos]) + (If(true, TUN_TTL, [t.ttl]) + (If(t.df, TUN_DF, []) + If(t.csum, TUN_CSUM, [])))
  }

  lemma ScanIf(c: bool, kind: nat, values: seq<nat>, rest: seq<Attr>, s: TunState)
    requires c ==> TunBodyOk(Attr(kind, Fields(values)))
    ensures TunScan(If(c, kind, values) + rest, s) ==
            TunScan(rest, if c then TunPut(s, Attr(kind, Fields(values))) else s)
  {
    if c {
      assert (If(c, kind, values) + rest)[1..] == rest;
    } else {
      assert If(c, kind, values) + rest == rest;
    }
  }

  /** What of a tunnel key survives being written and read back. */
  function TunRestored(t: Tun): Tun {
    t.(id := if t.hasKey then t.id else 0, flags := 0)
  }

  lemma TunTailScan(t: Tun, s: Tun)
    requires t.tos < U8 && t.ttl < U8 && s.tos == 0 && !s.df && !s.csum
    ensures TunScan(TunTail(t), TunState(s, false)) ==
            Some(TunState(s.(tos := t.tos, ttl := t.ttl, df := t.df, csum := t.csum), true))
  {
    var r3 := If(t.csum, TUN_CSUM, []);
    var r2 := If(t.df, TUN_DF, []) + r3;
    var r1 := If(true, TUN_TTL, [t.ttl]) + r2;
    ScanIf(t.tos != 0, TUN_TOS, [t.tos], r1, TunState(s, false));
    var s1 := s.(tos := t.tos);
    ScanIf(true, TUN_TTL, [t.ttl], r2, TunState(s1, false));
    var s2 := s1.(ttl := t.ttl);
    ScanIf(t.df, TUN_DF, [], r3, TunState(s2, true));
    var s3 := s2.(df := t.df);
    assert r3 + [] == r3;
    ScanIf(t.csum, TUN_CSUM, [], [], TunState(s3, true));
  }

  lemma TunHeadScan(t: Tun, rest: seq<Attr>)
    requires t.id < U64 && t.src < U32 && t.dst < U32
    ensures TunScan(If(t.hasKey, TUN_ID, [t.id]) + (If(t.src != 0, TUN_SRC, [t.src]) + (If(t.dst != 0, TUN_DST, [t.dst]) + rest)),
                    TunState(NO_TUN, false)) ==
            TunScan(rest, TunState(Tun(if t.hasKey then t.id else 0, t.src, t.dst, 0, 0, t.hasKey, false, false, 0), false))
  {
    var r2 := If(t.dst != 0, TUN_DST, [t.dst]) + rest;
    var r1 := If(t.src != 0, TUN_SRC, [t.src]) + r2;
    ScanIf(t.hasKey, TUN_ID, [t.id], r1, TunState(NO_TUN, false));
    var s1 := NO_TUN.(id := if t.hasKey then t.id else 0, hasKey := t.hasKey);
    ScanIf(t.src != 0, TUN_SRC, [t.src], r2, TunState(s1, false));
    var s2 := s1.(src := t.src);
    ScanIf(t.dst != 0, TUN_DST, [t.dst], rest, TunState(s2, false));
  }

  lemma TunRoundTrip(t: Tun)
    requires t.id < U64 && t.src < U32 && t.dst < U32 && t.tos < U8 && t.ttl < U8
    ensures ParseTun(TunAttrs(t)) == if t.dst == 0 then None else Some(TunRestored(t))
  {
    TunHeadScan(t, TunTail(t));
    TunTailScan(t, Tun(if t.hasKey then t.id else 0, t.src, t.dst, 0, 0, t.hasKey, false, false, 0));
  }

  // -------------------------------------------------------- the whole key

  /** The i-th field of an attribute, or zero, as in a cleared key, without it. */
  function Get(a: Attrs, kind: nat, i: nat): nat {
    if kind in a && a[kind].Fields? && i < |a[kind].values| then a[kind].values[i] else 0
  }

  function PhyOf(a: Attrs): Phy {
    Phy(Get(a, PRIORITY, 0), Get(a, SKB_MARK, 0), if IN_PORT in a then Get(a, IN_PORT, 0) else DP_MAX_PORTS)
  }

  function TunOf(a: Attrs): Option<Tun> {
    if TUNNEL in a && a[TUNNEL].Nest? then ParseTun(a[TUNNEL].attrs) else Some(NO_TUN)
  }

  function EthOf(a: Attrs): Eth {
    Eth(Get(a, ETHERNET, 0), Get(a, ETHERNET, 1), Get(a, VLAN, 0),
        if ETHERTYPE in a then Get(a, ETHERTYPE, 0) else ETH_P_802_2)
  }

  function IpOf(a: Attrs): Ip {
    var v4 := if IPV4 in a then Ip(Get(a, IPV4, 2), Get(a, IPV4, 3), Get(a, IPV4, 4), Get(a, IPV4, 5)) else Ip(0, 0, 0, 0);
    var v6 := if IPV6 in a then Ip(Get(a, IPV6, 3), Get(a, IPV6, 4), Get(a, IPV6, 5), Get(a, IPV6, 6)) else v4;
    if ARP in a then v6.(proto := Get(a, ARP, 2)) else v6
  }

  /** The transport ports from the TCP, TCP flags, UDP and SCTP attributes in turn. */
  function PortsOf(a: Attrs): Tp {
    var tcp := if TCP in a then Tp(Get(a, TCP, 0), Get(a, TCP, 1), 0) else NO_TP;
    var flags := if TCP_FLAGS in a then tcp.(flags := Get(a, TCP_FLAGS, 0)) else tcp;
    var udp := if UDP in a then flags.(src := Get(a, UDP, 0), dst := Get(a, UDP, 1)) else flags;
    if SCTP in a then udp.(src := Get(a, SCTP, 0), dst := Get(a, SCTP, 1)) else udp
  }

  function Icmp(a: Attrs, kind: nat, tp: Tp): Tp {
    if kind in a then tp.(src := Get(a, kind, 0), dst := Get(a, kind, 1)) else tp
  }

  function V4Of(a: Attrs): V4 {
    var tp := Icmp(a, ICMP, if IPV4 in a then PortsOf(a) else NO_TP);
    if ARP in a then V4(Get(a, ARP, 0), Get(a, ARP, 1), tp, Get(a, ARP, 3), Get(a, ARP, 4))
    else V4(Get(a, IPV4, 0), Get(a, IPV4, 1), tp, 0, 0)
  }

  function V6Of(a: Attrs): V6 {
    var tp := Icmp(a, ICMPV6, if IPV4 in a then NO_TP else PortsOf(a));
    V6(Get(a, IPV6, 0), Get(a, IPV6, 1), Get(a, IPV6, 2), tp, Nd(Get(a, ND, 0), Get(a, ND, 1), Get(a, ND, 2)))
  }

  const KNOWN: set<nat> := {PRIORITY, IN_PORT, SKB_MARK, TUNNEL, ETHERNET, VLAN, ETHERTYPE, IPV4, IPV6, ARP, TCP, TCP_FLAGS,
                            UDP, SCTP, ICMP, ICMPV6, ND}

  /** The values that ovs_key_from_nlattrs() and metadata_from_nlattrs() reject. */
  predicate ValuesOk(a: Attrs) {
    && (IN_PORT in a ==> Get(a, IN_PORT, 0) < DP_MAX_PORTS)
    && (VLAN in a ==> TagPresent(Get(a, VLAN, 0)))
    && (ETHERTYPE in a ==> Get(a, ETHERTYPE, 0) >= ETH_P_802_3_MIN)
    && (IPV4 in a ==> Get(a, IPV4, 5) <= FRAG_MAX)
    && (IPV6 in a ==> Get(a, IPV6, 6) <= FRAG_MAX)
    && (ARP in a ==> Get(a, ARP, 2) < U8)
  }

  /** ovs_key_from_nlattrs() for a key. */
  function FromAttrs(a: Attrs): Option<Key> {
    match TunOf(a)
    case None => None
    case Some(tun) =>
      if ValuesOk(a) && a.Keys <= KNOWN then Some(Key(tun, PhyOf(a), EthOf(a), IpOf(a), V4Of(a), V6Of(a))) else None
  }

  predicate IsArp(k: Key) {
    k.eth.etherType == ETH_P_ARP || k.eth.etherType == ETH_P_RARP
  }

  predicate IsNd(kind: nat) {
    kind == NEIGHBOUR_SOLICITATION || kind == NEIGHBOUR_ADVERTISEMENT
  }

  /** The attributes that go with a transport protocol above IPv4 ('v6' false) or IPv6. */
  function Transport(k: Key, v6: bool): seq<nat> {
    if k.ip.frag == FRAG_LATER then []
    else if k.ip.proto == IPPROTO_TCP then [TCP, TCP_FLAGS]
    else if k.ip.proto == IPPROTO_UDP then [UDP]
    else if k.ip.proto == IPPROTO_SCTP then [SCTP]
    else if k.ip.proto == IPPROTO_ICMP && !v6 then [ICMP]
    else if k.ip.proto == IPPROTO_ICMPV6 && v6 then [ICMPV6]
    else []
  }

  /** The attributes that ovs_match_validate() wants of a key. */
  function Expected(k: Key): set<nat> {
    {ETHERNET}
    + (if IsArp(k) then {ARP} else {})
    + (if k.eth.etherType == ETH_P_IP then {IPV4} + (set t | t in Transport(k, false)) else {})
    + (if k.eth.etherType == ETH_P_IPV6 then
         {IPV6} + (set t | t in Transport(k, true))
         + (if ICMPV6 in Transport(k, true) && IsNd(k.v6.tp.src) then {ND} else {})
       else {})
  }

  /** The attributes of the encapsulated frame take the place of those of the VLAN
      header in ovs_match_from_nlattrs(). */
  function Unwrap(a: Attrs): Option<Attrs> {
    if ETHERNET in a && ETHERTYPE in a && Get(a, ETHERTYPE, 0) == ETH_P_8021Q then
      if !(VLAN in a && ENCAP in a && a[ENCAP].Nest?) then None
      else
        var rest := a - {ETHERTYPE, ENCAP};
        if TagPresent(Get(a, VLAN, 0)) then ParseList(a[ENCAP].attrs, rest)
        else if Get(a, VLAN, 0) == 0 && a[ENCAP].attrs == [] then Some(rest)
        else None
    else Some(a)
  }

  /** ovs_match_from_nlattrs() without a mask. */
  function ParseKey(attrs: seq<Attr>): Option<Key> {
    match ParseList(attrs, map[])
    case None => None
    case Some(a) =>
      match Unwrap(a)
      case None => None
      case Some(b) =>
        match FromAttrs(b)
        case None => None
        case Some(k) => if Expected(k) <= b.Keys then Some(k) else None
  }

  // --------------------------------------------------------- serialising

  /** What ovs_flow_to_nlattrs() puts in an attribute. */
  function BodyFor(k: Key, kind: nat): Body {
    var tp := if k.eth.etherType == ETH_P_IP then k.v4.tp else k.v6.tp;
    if kind == PRIORITY then Fields([k.phy.priority])
    else if kind == TUNNEL then Nest(TunAttrs(k.tun))
    else if kind == IN_PORT then Fields([k.phy.inPort])
    else if kind == SKB_MARK then Fields([k.phy.mark])
    else if kind == ETHERNET then Fields([k.eth.src, k.eth.dst])
    else if kind == VLAN then Fields([k.eth.tci])
    else if kind == ETHERTYPE then Fields([k.eth.etherType])
    else if kind == IPV4 then Fields([k.v4.src, k.v4.dst, k.ip.proto, k.ip.tos, k.ip.ttl, k.ip.frag])
    else if kind == IPV6 then
      Fields([k.v6.src, k.v6.dst, k.v6.flowLabel, k.ip.proto, k.ip.tos, k.ip.ttl, k.ip.frag])
    else if kind == ARP then Fields([k.v4.src, k.v4.dst, k.ip.proto, k.v4.sha, k.v4.tha])
    else if kind == TCP || kind == UDP || kind == SCTP then Fields([tp.src, tp.dst])
    else if kind == TCP_FLAGS then Fields([tp.flags])
    else if kind == ICMP || kind == ICMPV6 then Fields([tp.src % U8, tp.dst % U8])
    else Fields([k.v6.nd.target, k.v6.nd.sll, k.v6.nd.tll])
  }

  function Emit(body: nat -> Body, kinds: seq<nat>): seq<Attr> {
    if kinds == [] then [] else [Attr(kinds[0], body(kinds[0]))] + Emit(body, kinds[1..])
  }

  function Bodies(k: Key): nat -> Body {
    (kind: nat) => BodyFor(k, kind)
  }

  /** The attributes that describe the packet's metadata and Ethernet addresses. */
  function OuterKinds(k: Key): seq<nat> {
    [PRIORITY] + (if k.tun.dst != 0 then [TUNNEL] else [])
    + (if k.phy.inPort != DP_MAX_PORTS then [IN_PORT] else []) + [SKB_MARK, ETHERNET]
  }

  /** The attributes from the Ethernet type on. */
  function InnerKinds(k: Key): seq<nat> {
    if (k.eth.etherType == ETH_P_8021Q && k.eth.tci == 0) || k.eth.etherType == ETH_P_802_2 then []
    else if k.eth.etherType == ETH_P_IP then [ETHERTYPE, IPV4] + Transport(k, false)
    else if k.eth.etherType == ETH_P_IPV6 then
      [ETHERTYPE, IPV6] + Transport(k, true)
      + (if ICMPV6 in Transport(k, true) && IsNd(k.v6.tp.src % U8) then [ND] else [])
    else if IsArp(k) then [ETHERTYPE, ARP]
    else [ETHERTYPE]
  }

  predicate Tagged(k: Key) {
    k.eth.tci != 0 || k.eth.etherType == ETH_P_8021Q
  }

  /** ovs_flow_to_nlattrs() of a key. */
  function Serialise(k: Key): seq<Attr> {
    if Tagged(k) then
      Emit(Bodies(k), OuterKinds(k))
      + [Attr(ETHERTYPE, Fields([ETH_P_8021Q])), Attr(VLAN, BodyFor(k, VLAN)), Attr(ENCAP, Nest(Emit(Bodies(k), InnerKinds(k))))]
    else Emit(Bodies(k), OuterKinds(k)) + Emit(Bodies(k), InnerKinds(k))
  }
}
