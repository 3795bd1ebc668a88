/**
  Writing a flow key as Netlink attributes and reading it back (datapath/flow.c):
  which keys are accepted, what comes back, and for which keys it is the same.
 */
module FlowRoundTrip {
  import opened Collections
  import opened FlowNetlink

  // ---------------------------------------------- the attributes of a key

  /** All of 'kinds' can be added to 'a'. */
  ghost predicate Addable(body: nat -> Body, kinds: seq<nat>, a: Attrs) {
    && Distinct(kinds)
    && forall t | t in kinds :: t <= KEY_ATTR_MAX && t !in a && BodyOk(t, body(t))
  }

  ghost function AddAll(body: nat -> Body, kinds: seq<nat>, a: Attrs): Attrs {
    if kinds == [] then a else AddAll(body, kinds[1..], a[kinds[0] := body(kinds[0])])
  }

  lemma ParseOne(x: Attr, rest: seq<Attr>, a: Attrs)
    requires x.kind <= KEY_ATTR_MAX && x.kind !in a && BodyOk(x.kind, x.body)
    ensures ParseList([x] + rest, a) == ParseList(rest, a[x.kind := x.body])
  {
    assert ([x] + rest)[1..] == rest;
  }

  lemma {:induction false} ParseEmitted(body: nat -> Body, kinds: seq<nat>, rest: seq<Attr>, a: Attrs)
    requires Addable(body, kinds, a)
    ensures ParseList(Emit(body, kinds) + rest, a) == ParseList(rest, AddAll(body, kinds, a))
    decreases |kinds|
  {
    if kinds == [] {
      assert Emit(body, kinds) + rest == rest;
    } else {
      var t := kinds[0];
      EmitSplit(body, kinds, rest);
      ParseOne(Attr(t, body(t)), Emit(body, kinds[1..]) + rest, a);
      AddableTail(body, kinds, a);
      ParseEmitted(body, kinds[1..], rest, a[t := body(t)]);
    }
  }

  lemma EmitSplit(body: nat -> Body, kinds: seq<nat>, rest: seq<Attr>)
    requires kinds != []
    ensures Emit(body, kinds) + rest == [Attr(kinds[0], body(kinds[0]))] + (Emit(body, kinds[1..]) + rest)
  {
  }

  lemma AddableTail(body: nat -> Body, kinds: seq<nat>, a: Attrs)
    requires kinds != [] && Addable(body, kinds, a)
    ensures Addable(body, kinds[1..], a[kinds[0] := body(kinds[0])])
  {
    forall t | t in kinds[1..] ensures t in kinds && t != kinds[0] {
      var i :| 0 <= i < |kinds[1..]| && kinds[1..][i] == t;
      assert kinds[i + 1] == t;
    }
  }

  lemma {:induction false} AddAllHas(body: nat -> Body, kinds: seq<nat>, a: Attrs, t: nat)
    ensures t in AddAll(body, kinds, a) <==> t in a || t in kinds
    ensures t in kinds ==> AddAll(body, kinds, a)[t] == body(t)
    ensures t in a && t !in kinds ==> AddAll(body, kinds, a)[t] == a[t]
    decreases |kinds|
  {
    if kinds != [] {
      AddAllHas(body, kinds[1..], a[kinds[0] := body(kinds[0])], t);
      assert kinds == [kinds[0]] + kinds[1..];
    }
  }

  // ------------------------------------------- what a message carries

  /** Whether the message for 'k' has attribute 't', once the VLAN header is peeled
      off. */
  predicate Carries(k: Key, t: nat) {
    t in OuterKinds(k) || (t == VLAN && Tagged(k)) || t in InnerKinds(k)
  }

  ghost function Outer(k: Key): Attrs {
    AddAll(Bodies(k), OuterKinds(k), map[])
  }

  /** The outer attributes with the VLAN tag, if any. */
  ghost function Framed(k: Key): Attrs {
    if Tagged(k) then Outer(k)[VLAN := BodyFor(k, VLAN)] else Outer(k)
  }

  ghost function Final(k: Key): Attrs {
    AddAll(Bodies(k), InnerKinds(k), Framed(k))
  }

  lemma OuterCarries(k: Key)
    ensures Distinct(OuterKinds(k))
    ensures forall t :: t in OuterKinds(k) <==>
              || t in {PRIORITY, SKB_MARK, ETHERNET} || (t == TUNNEL && k.tun.dst != 0)
              || (t == IN_PORT && k.phy.inPort != DP_MAX_PORTS)
  {
  }

  lemma FinalHas(k: Key, t: nat)
    ensures t in Final(k) <==> Carries(k, t)
    ensures Carries(k, t) ==> Final(k)[t] == BodyFor(k, t)
  {
    AddAllHas(Bodies(k), InnerKinds(k), Framed(k), t);
    AddAllHas(Bodies(k), OuterKinds(k), map[], t);
  }

  lemma TransportDistinct(k: Key, v6: bool)
    ensures Distinct(Transport(k, v6))
    ensures forall t | t in Transport(k, v6) :: t in {TCP, TCP_FLAGS, UDP, SCTP, ICMP, ICMPV6}
  {
  }

  lemma InnerDistinct(k: Key)
    ensures Distinct(InnerKinds(k))
    ensures forall t | t in InnerKinds(k) :: t in {ETHERTYPE, IPV4, IPV6, ARP, TCP, TCP_FLAGS, UDP, SCTP, ICMP, ICMPV6, ND}
  {
    if k.eth.etherType == ETH_P_IP {
      TransportDistinct(k, false);
      DistinctConcat([ETHERTYPE, IPV4], Transport(k, false));
    } else if k.eth.etherType == ETH_P_IPV6 {
      TransportDistinct(k, true);
      DistinctConcat([ETHERTYPE, IPV6], Transport(k, true));
      var nd := if ICMPV6 in Transport(k, true) && IsNd(k.v6.tp.src % U8) then [ND] else [];
      DistinctConcat([ETHERTYPE, IPV6] + Transport(k, true), nd);
    }
  }

  /** Everything that can go in a message fits its attribute. */
  lemma BodiesFit(k: Key, t: nat)
    requires WidthsOk(k) && t in KNOWN
    ensures BodyOk(t, BodyFor(k, t))
  {
  }

  // ------------------------------------------------ peeling off the VLAN header

  lemma OuterParsed(k: Key, rest: seq<Attr>)
    requires WidthsOk(k)
    ensures ParseList(Emit(Bodies(k), OuterKinds(k)) + rest, map[]) == ParseList(rest, Outer(k))
    ensures forall t :: t in Outer(k) <==> t in OuterKinds(k)
  {
    OuterCarries(k);
    forall t | t in OuterKinds(k) ensures BodyOk(t, Bodies(k)(t)) {
      BodiesFit(k, t);
    }
    ParseEmitted(Bodies(k), OuterKinds(k), rest, map[]);
    forall t ensures t in Outer(k) <==> t in OuterKinds(k) {
      AddAllHas(Bodies(k), OuterKinds(k), map[], t);
    }
  }

  lemma InnerParsed(k: Key)
    requires WidthsOk(k)
    ensures ParseList(Emit(Bodies(k), InnerKinds(k)), Framed(k)) == Some(Final(k))
  {
    InnerDistinct(k);
    OuterCarries(k);
    forall t | t in InnerKinds(k) ensures t <= KEY_ATTR_MAX && t !in Framed(k) && BodyOk(t, Bodies(k)(t)) {
      BodiesFit(k, t);
      AddAllHas(Bodies(k), OuterKinds(k), map[], t);
    }
    ParseEmitted(Bodies(k), InnerKinds(k), [], Framed(k));
    assert Emit(Bodies(k), InnerKinds(k)) + [] == Emit(Bodies(k), InnerKinds(k));
  }

  lemma UntaggedParsed(k: Key)
    requires WidthsOk(k) && !Tagged(k)
    ensures ParseList(Serialise(k), map[]) == Some(Final(k))
  {
    OuterParsed(k, Emit(Bodies(k), InnerKinds(k)));
    InnerParsed(k);
  }

  /** A message without a VLAN header is left alone. */
  lemma UntaggedUnwrapped(k: Key)
    requires !Tagged(k)
    ensures Unwrap(Final(k)) == Some(Final(k))
  {
    FinalHas(k, ETHERTYPE);
  }

  ghost function TaggedAttrs(k: Key): Attrs {
    Outer(k)[ETHERTYPE := Fields([ETH_P_8021Q])][VLAN := BodyFor(k, VLAN)][ENCAP := Nest(Emit(Bodies(k), InnerKinds(k)))]
  }

  lemma TaggedList(k: Key)
    requires WidthsOk(k) && Tagged(k)
    ensures ParseList(Serialise(k), map[]) == Some(TaggedAttrs(k))
  {
    var x, y, z := Attr(ETHERTYPE, Fields([ETH_P_8021Q])), Attr(VLAN, BodyFor(k, VLAN)),
                   Attr(ENCAP, Nest(Emit(Bodies(k), InnerKinds(k))));
    OuterParsed(k, [x, y, z]);
    OuterCarries(k);
    BodiesFit(k, VLAN);
    assert [x, y, z] == [x] + ([y] + ([z] + []));
    ParseOne(x, [y] + ([z] + []), Outer(k));
    ParseOne(y, [z] + [], Outer(k)[ETHERTYPE := x.body]);
    ParseOne(z, [], Outer(k)[ETHERTYPE := x.body][VLAN := y.body]);
  }

  lemma TaggedPeeled(k: Key)
    requires WidthsOk(k) && Tagged(k)
    ensures ETHERNET in TaggedAttrs(k) && TaggedAttrs(k) - {ETHERTYPE, ENCAP} == Framed(k)
  {
    OuterParsed(k, []);
    OuterCarries(k);
    assert ETHERNET in OuterKinds(k) && ETHERTYPE !in OuterKinds(k) && ENCAP !in OuterKinds(k) && VLAN !in OuterKinds(k);
    PeelTwo(Outer(k), Fields([ETH_P_8021Q]), BodyFor(k, VLAN), Nest(Emit(Bodies(k), InnerKinds(k))));
  }

  lemma PeelTwo(a: Attrs, x: Body, y: Body, z: Body)
    requires ETHERTYPE !in a && ENCAP !in a && VLAN !in a
    ensures a[ETHERTYPE := x][VLAN := y][ENCAP := z] - {ETHERTYPE, ENCAP} == a[VLAN := y]
  {
  }

  lemma UnwrapTagged(a: Attrs, rest: Attrs, tci: nat, inner: seq<Attr>)
    requires ETHERNET in a && ETHERTYPE in a && a[ETHERTYPE] == Fields([ETH_P_8021Q])
    requires VLAN in a && a[VLAN] == Fields([tci]) && ENCAP in a && a[ENCAP] == Nest(inner)
    requires rest == a - {ETHERTYPE, ENCAP}
    ensures Unwrap(a) == if TagPresent(tci) then ParseList(inner, rest)
                         else if tci == 0 && inner == [] then Some(rest) else None
  {
  }

  /** A message with one: the parser goes on exactly if the tag is marked present, or
      the whole header is missing. */
  lemma TaggedUnwrapped(k: Key)
    requires WidthsOk(k) && Tagged(k)
    ensures Unwrap(TaggedAttrs(k)) == if TagPresent(k.eth.tci) || k.eth.tci == 0 then Some(Final(k)) else None
  {
    TaggedPeeled(k);
    UnwrapTagged(TaggedAttrs(k), Framed(k), k.eth.tci, Emit(Bodies(k), InnerKinds(k)));
    InnerParsed(k);
  }

  // --------------------------------------------------------- what comes back

  /** The keys that the parser accepts when it is given their own attributes. */
  predicate Accepted(k: Key) {
    && (Tagged(k) ==> TagPresent(k.eth.tci))
    && (k.eth.etherType == ETH_P_802_2 || k.eth.etherType >= ETH_P_802_3_MIN)
    && (k.eth.etherType == ETH_P_IP || k.eth.etherType == ETH_P_IPV6 ==> k.ip.frag <= FRAG_MAX)
  }

  /** The part of the transport fields that a message carries. */
  function TpRestored(k: Key, v6: bool, tp: Tp): Tp {
    var kinds := Transport(k, v6);
    if TCP in kinds then tp
    else if UDP in kinds || SCTP in kinds then tp.(flags := 0)
    else if ICMP in kinds || ICMPV6 in kinds then Tp(tp.src % U8, tp.dst % U8, 0)
    else NO_TP
  }

  function IpRestored(k: Key): Ip {
    if k.eth.etherType == ETH_P_IP || k.eth.etherType == ETH_P_IPV6 then k.ip
    else if IsArp(k) then Ip(k.ip.proto, 0, 0, 0)
    else Ip(0, 0, 0, 0)
  }

  function V4Restored(k: Key): V4 {
    if k.eth.etherType == ETH_P_IP then V4(k.v4.src, k.v4.dst, TpRestored(k, false, k.v4.tp), 0, 0)
    else if IsArp(k) then V4(k.v4.src, k.v4.dst, NO_TP, k.v4.sha, k.v4.tha)
    else V4(0, 0, NO_TP, 0, 0)
  }

  function V6Restored(k: Key): V6 {
    if k.eth.etherType == ETH_P_IPV6 then
      V6(k.v6.src, k.v6.dst, k.v6.flowLabel, TpRestored(k, true, k.v6.tp),
         if ICMPV6 in Transport(k, true) && IsNd(k.v6.tp.src % U8) then k.v6.nd else NO_ND)
    else V6(0, 0, 0, NO_TP, NO_ND)
  }

  /** What comes back: everything that does not belong to the packet's protocols is
      cleared. */
  function Restored(k: Key): Key {
    Key(if k.tun.dst == 0 then NO_TUN else TunRestored(k.tun), k.phy, k.eth, IpRestored(k), V4Restored(k), V6Restored(k))
  }

  /** 'a' holds exactly what the message for 'k' carries. */
  ghost predicate Describes(a: Attrs, k: Key) {
    forall t :: (t in a <==> Carries(k, t)) && (t in a ==> a[t] == BodyFor(k, t))
  }

  lemma FinalDescribes(k: Key)
    ensures Describes(Final(k), k)
  {
    forall t ensures (t in Final(k) <==> Carries(k, t)) && (t in Final(k) ==> Final(k)[t] == BodyFor(k, t)) {
      FinalHas(k, t);
    }
  }

  lemma PhyBack(a: Attrs, k: Key)
    requires Describes(a, k)
    ensures PhyOf(a) == k.phy
  {
    OuterCarries(k);
    InnerDistinct(k);
    assert Carries(k, PRIORITY) && Carries(k, SKB_MARK);
    assert Carries(k, IN_PORT) <==> k.phy.inPort != DP_MAX_PORTS;
  }

  /** Which network attributes a message carries. */
  lemma InnerCarries(k: Key)
    ensures Carries(k, IPV4) <==> k.eth.etherType == ETH_P_IP
    ensures Carries(k, IPV6) <==> k.eth.etherType == ETH_P_IPV6
    ensures Carries(k, ARP) <==> IsArp(k)
  {
    OuterCarries(k);
  }

  lemma EthCarries(k: Key)
    ensures Carries(k, ETHERNET) && (Carries(k, VLAN) <==> Tagged(k))
    ensures Carries(k, ETHERTYPE) <==>
              k.eth.etherType != ETH_P_802_2 && (k.eth.etherType == ETH_P_8021Q ==> k.eth.tci != 0)
  {
    OuterCarries(k);
    InnerDistinct(k);
  }

  /** Attribute 't' is in 'a', with what is sent for 'k', exactly under 'c'. */
  ghost predicate Has(a: Attrs, k: Key, t: nat, c: bool) {
    (t in a <==> c) && (t in a ==> a[t] == BodyFor(k, t))
  }

  ghost predicate HasNet(a: Attrs, k: Key) {
    Has(a, k, IPV4, k.eth.etherType == ETH_P_IP) && Has(a, k, IPV6, k.eth.etherType == ETH_P_IPV6) && Has(a, k, ARP, IsArp(k))
  }

  ghost predicate HasEth(a: Attrs, k: Key) {
    && Has(a, k, ETHERNET, true) && Has(a, k, VLAN, Tagged(k))
    && Has(a, k, ETHERTYPE, k.eth.etherType != ETH_P_802_2 && (k.eth.etherType == ETH_P_8021Q ==> k.eth.tci != 0))
  }

  ghost predicate HasTransport(a: Attrs, k: Key) {
    && OnlyPorts(a, TransportKinds(k))
    && (forall t | t in TransportKinds(k) :: t in a && a[t] == BodyFor(k, t))
  }

  lemma DescribesNet(a: Attrs, k: Key)
    requires Describes(a, k)
    ensures HasNet(a, k)
  {
    InnerCarries(k);
  }

  lemma DescribesEth(a: Attrs, k: Key)
    requires Describes(a, k)
    ensures HasEth(a, k)
  {
    EthCarries(k);
  }

  lemma EthBack(a: Attrs, k: Key)
    requires HasEth(a, k) && Accepted(k)
    ensures EthOf(a) == k.eth
  {
  }

  lemma TunBack(a: Attrs, k: Key)
    requires Describes(a, k) && WidthsOk(k)
    ensures TunOf(a) == Some(if k.tun.dst == 0 then NO_TUN else TunRestored(k.tun))
  {
    OuterCarries(k);
    InnerDistinct(k);
    assert Carries(k, TUNNEL) <==> k.tun.dst != 0;
    TunRoundTrip(k.tun);
  }

  /** Which transport attributes. */
  lemma TransportCarries(k: Key, t: nat)
    requires t in {TCP, TCP_FLAGS, UDP, SCTP, ICMP, ICMPV6}
    ensures Carries(k, t) <==>
            || (k.eth.etherType == ETH_P_IP && t in Transport(k, false))
            || (k.eth.etherType == ETH_P_IPV6 && t in Transport(k, true))
  {
    OuterCarries(k);
  }

  lemma NdCarries(k: Key)
    ensures Carries(k, ND) <==> k.eth.etherType == ETH_P_IPV6 && ICMPV6 in Transport(k, true) && IsNd(k.v6.tp.src % U8)
  {
    OuterCarries(k);
  }

  lemma IpBack(a: Attrs, k: Key)
    requires HasNet(a, k)
    ensures IpOf(a) == IpRestored(k)
  {
  }

  /** No transport attributes at all but those in 'kinds'. */
  ghost predicate OnlyPorts(a: Attrs, kinds: seq<nat>) {
    && (TCP in a <==> TCP in kinds) && (TCP_FLAGS in a <==> TCP_FLAGS in kinds) && (UDP in a <==> UDP in kinds)
    && (SCTP in a <==> SCTP in kinds) && (ICMP in a <==> ICMP in kinds) && (ICMPV6 in a <==> ICMPV6 in kinds)
  }

  function TransportKinds(k: Key): seq<nat> {
    if k.eth.etherType == ETH_P_IP then Transport(k, false)
    else if k.eth.etherType == ETH_P_IPV6 then Transport(k, true)
    else []
  }

  lemma OnlyTransport(a: Attrs, k: Key)
    requires Describes(a, k)
    ensures OnlyPorts(a, TransportKinds(k))
  {
    TransportCarries(k, TCP);
    TransportCarries(k, TCP_FLAGS);
    TransportCarries(k, UDP);
    TransportCarries(k, SCTP);
    TransportCarries(k, ICMP);
    TransportCarries(k, ICMPV6);
  }

  lemma DescribesTransport(a: Attrs, k: Key)
    requires Describes(a, k)
    ensures HasTransport(a, k)
  {
    OnlyTransport(a, k);
    forall t | t in TransportKinds(k) ensures Carries(k, t) {
      TransportCarries(k, t);
    }
  }

  /** The transport fields of whichever IP version the key has. */
  lemma PortsBack(a: Attrs, k: Key, v6: bool)
    requires OnlyPorts(a, Transport(k, v6))
    requires forall t | t in Transport(k, v6) :: t in a && a[t] == BodyFor(k, t)
    requires k.eth.etherType == if v6 then ETH_P_IPV6 else ETH_P_IP
    ensures Icmp(a, if v6 then ICMPV6 else ICMP, PortsOf(a)) == TpRestored(k, v6, if v6 then k.v6.tp else k.v4.tp)
  {
  }

  lemma V4Back(a: Attrs, k: Key)
    requires HasNet(a, k) && HasTransport(a, k)
    ensures V4Of(a) == V4Restored(k)
  {
    if k.eth.etherType == ETH_P_IP {
      PortsBack(a, k, false);
    }
  }

  lemma V6Back(a: Attrs, k: Key)
    requires HasNet(a, k) && HasTransport(a, k)
    requires Has(a, k, ND, k.eth.etherType == ETH_P_IPV6 && ICMPV6 in Transport(k, true) && IsNd(k.v6.tp.src % U8))
    ensures V6Of(a) == V6Restored(k)
  {
    if k.eth.etherType == ETH_P_IPV6 {
      PortsBack(a, k, true);
    }
  }

  lemma ValuesBack(a: Attrs, k: Key)
    requires HasEth(a, k) && HasNet(a, k) && Has(a, k, IN_PORT, k.phy.inPort != DP_MAX_PORTS) && WidthsOk(k)
    ensures ValuesOk(a) <==> Accepted(k)
  {
  }

  lemma PortCarries(k: Key)
    ensures Carries(k, IN_PORT) <==> k.phy.inPort != DP_MAX_PORTS
  {
    OuterCarries(k);
    InnerDistinct(k);
  }

  lemma KindsKnown(a: Attrs, k: Key)
    requires Describes(a, k)
    ensures a.Keys <= KNOWN
  {
    OuterCarries(k);
    InnerDistinct(k);
  }

  lemma ExpectedThere(a: Attrs, k: Key)
    requires Describes(a, k)
    ensures Expected(Restored(k)) <= a.Keys
  {
    forall t | t in Expected(Restored(k)) ensures t in a {
      ExpectedCarried(k, t);
    }
  }

  lemma SameTransport(k: Key)
    ensures k.eth.etherType == ETH_P_IP ==> Transport(Restored(k), false) == Transport(k, false)
    ensures k.eth.etherType == ETH_P_IPV6 ==> Transport(Restored(k), true) == Transport(k, true)
  {
  }

  lemma SameNd(k: Key)
    requires k.eth.etherType == ETH_P_IPV6 && ICMPV6 in Transport(k, true)
    ensures Restored(k).v6.tp.src == k.v6.tp.src % U8
  {
  }

  lemma ExpectedCarried(k: Key, t: nat)
    requires t in Expected(Restored(k))
    ensures Carries(k, t)
  {
    SameTransport(k);
    if t in {TCP, TCP_FLAGS, UDP, SCTP, ICMP, ICMPV6} {
      TransportCarries(k, t);
    } else if t == ND {
      SameNd(k);
      NdCarries(k);
    } else {
      EthCarries(k);
      InnerCarries(k);
    }
  }

  // ------------------------------------------------------------ round trips

  lemma KeyBack(a: Attrs, k: Key)
    requires Describes(a, k) && WidthsOk(k)
    ensures FromAttrs(a) == if Accepted(k) then Some(Restored(k)) else None
  {
    TunBack(a, k);
    DescribesEth(a, k);
    DescribesNet(a, k);
    DescribesTransport(a, k);
    PortCarries(k);
    NdCarries(k);
    ValuesBack(a, k);
    KindsKnown(a, k);
    if Accepted(k) {
      PhyBack(a, k);
      EthBack(a, k);
      IpBack(a, k);
      V4Back(a, k);
      V6Back(a, k);
    }
  }

  /** What the parser makes of the attributes that the kernel writes for a key. */
  lemma ParsesBack(k: Key)
    requires WidthsOk(k)
    ensures ParseKey(Serialise(k)) == if Accepted(k) then Some(Restored(k)) else None
  {
    FinalDescribes(k);
    KeyBack(Final(k), k);
    ExpectedThere(Final(k), k);
    if Tagged(k) {
      TaggedList(k);
      TaggedUnwrapped(k);
    } else {
      UntaggedParsed(k);
      UntaggedUnwrapped(k);
    }
  }

  /** The keys whose fields are all carried: a tunnel only with a destination, an
      identifier only with the flag for it and no flags that have no attribute; nothing
      of a protocol that the packet does not have; types and codes of one byte. */
  predicate WellFormed(k: Key) {
    && (if k.tun.dst == 0 then k.tun == NO_TUN else k.tun.flags == 0 && (k.tun.hasKey || k.tun.id == 0))
    && (k.eth.etherType == ETH_P_IP || k.eth.etherType == ETH_P_IPV6
        || (k.ip.tos == 0 && k.ip.ttl == 0 && k.ip.frag == 0 && (IsArp(k) || k.ip.proto == 0)))
    && (k.eth.etherType == ETH_P_IP || IsArp(k) || (k.v4.src == 0 && k.v4.dst == 0))
    && (IsArp(k) || (k.v4.sha == 0 && k.v4.tha == 0))
    && (if k.eth.etherType == ETH_P_IP then TpFits(k, false, k.v4.tp) else k.v4.tp == NO_TP)
    && (if k.eth.etherType == ETH_P_IPV6 then
          TpFits(k, true, k.v6.tp) && (k.v6.nd == NO_ND || (ICMPV6 in Transport(k, true) && IsNd(k.v6.tp.src)))
        else k.v6 == V6(0, 0, 0, NO_TP, NO_ND))
  }

  predicate TpFits(k: Key, v6: bool, tp: Tp) {
    var kinds := Transport(k, v6);
    && (TCP in kinds || tp.flags == 0)
    && (kinds == [] ==> tp == NO_TP)
    && (ICMP in kinds || ICMPV6 in kinds ==> tp.src < U8 && tp.dst < U8)
  }

  lemma TpFitsExactly(k: Key, v6: bool, tp: Tp)
    requires TpOk(tp)
    ensures TpRestored(k, v6, tp) == tp <==> TpFits(k, v6, tp)
  {
    ByteExactly(tp.src);
    ByteExactly(tp.dst);
  }

  lemma ByteExactly(x: nat)
    ensures x % U8 == x <==> x < U8
  {
  }

  lemma RestoredExactly(k: Key)
    requires WidthsOk(k)
    ensures Restored(k) == k <==> WellFormed(k)
  {
    TpFitsExactly(k, false, k.v4.tp);
    TpFitsExactly(k, true, k.v6.tp);
  }

  /** The round trip gives the key back exactly when the key is well formed, its VLAN
      tag, if there is one, is marked present, its Ethernet type is one that can be
      sent, and its fragment type is known. */
  lemma RoundTripExactly(k: Key)
    requires WidthsOk(k)
    ensures ParseKey(Serialise(k)) == Some(k) <==> WellFormed(k) && Accepted(k)
  {
    ParsesBack(k);
    RestoredExactly(k);
  }

  /** A key that flow extraction makes of a packet whose 802.1Q header is cut short (no
      tag, but the type of a VLAN header) is not accepted, however well formed: the
      branch of the parser that is meant for it comes to nothing. */
  lemma TruncatedVlanRejected(k: Key)
    requires WidthsOk(k) && k.eth.etherType == ETH_P_8021Q && k.eth.tci == 0
    ensures ParseKey(Serialise(k)) == None
  {
    ParsesBack(k);
  }

  /** Two keys that the kernel writes alike are the same as far as the parser can
      tell. */
  lemma SameMessageSameKey(j: Key, k: Key)
    requires WidthsOk(j) && WidthsOk(k) && Serialise(j) == Serialise(k)
    requires Accepted(j) && WellFormed(j) && WellFormed(k)
    ensures j == k
  {
    RoundTripExactly(j);
    ParsesBack(k);
    RestoredExactly(k);
  }

  // ------------------------------------- dumping what user space installed

  ghost predicate TunWidths(t: Tun) {
    t.id < U64 && t.src < U32 && t.dst < U32 && t.tos < U8 && t.ttl < U8
  }

  lemma {:induction false} ScanWidths(attrs: seq<Attr>, s: TunState)
    requires TunWidths(s.tun)
    ensures TunScan(attrs, s).Some? ==> TunWidths(TunScan(attrs, s).value.tun)
    decreases |attrs|
  {
    if attrs != [] && TunBodyOk(attrs[0]) {
      PutWidths(s, attrs[0]);
      ScanWidths(attrs[1..], TunPut(s, attrs[0]));
    }
  }

  lemma PutWidths(s: TunState, x: Attr)
    requires TunWidths(s.tun) && TunBodyOk(x)
    ensures TunWidths(TunPut(s, x).tun)
  {
  }

  lemma GetBelow(a: Attrs, kind: nat, i: nat)
    requires Shaped(a) && i < |Limits(kind)| && Limits(kind)[i] > 0
    ensures Get(a, kind, i) < Limits(kind)[i]
  {
    if kind in a {
      assert BodyOk(kind, a[kind]);
    }
  }

  lemma UnwrapShaped(a: Attrs)
    requires Shaped(a)
    ensures Unwrap(a).Some? ==> Shaped(Unwrap(a).value)
  {
    var rest := a - {ETHERTYPE, ENCAP};
    assert Shaped(rest) by {
      forall kind | kind in rest ensures BodyOk(kind, rest[kind]) {
        assert BodyOk(kind, a[kind]);
      }
    }
    if ENCAP in a && a[ENCAP].Nest? {
      ParseListShaped(a[ENCAP].attrs, rest);
    }
  }

  lemma EthWidths(a: Attrs)
    requires Shaped(a)
    ensures EthOf(a).src < U48 && EthOf(a).dst < U48 && EthOf(a).tci < U16 && EthOf(a).etherType < U16
  {
    GetBelow(a, ETHERNET, 0);
    GetBelow(a, ETHERNET, 1);
    GetBelow(a, VLAN, 0);
    GetBelow(a, ETHERTYPE, 0);
  }

  lemma PhyWidths(a: Attrs)
    requires Shaped(a) && ValuesOk(a)
    ensures PhyOf(a).priority < U32 && PhyOf(a).mark < U32 && PhyOf(a).inPort < U16
  {
    GetBelow(a, PRIORITY, 0);
    GetBelow(a, SKB_MARK, 0);
  }

  lemma IpWidths(a: Attrs)
    requires Shaped(a) && ValuesOk(a)
    ensures IpOf(a).proto < U8 && IpOf(a).tos < U8 && IpOf(a).ttl < U8 && IpOf(a).frag < U8
  {
    GetBelow(a, IPV4, 2);
    GetBelow(a, IPV4, 3);
    GetBelow(a, IPV4, 4);
    GetBelow(a, IPV6, 3);
    GetBelow(a, IPV6, 4);
    GetBelow(a, IPV6, 5);
  }

  lemma PortWidths(a: Attrs, kind: nat, tp: Tp)
    requires Shaped(a) && kind in {ICMP, ICMPV6} && (tp == NO_TP || tp == PortsOf(a))
    ensures TpOk(Icmp(a, kind, tp))
  {
    GetBelow(a, TCP, 0);
    GetBelow(a, TCP, 1);
    GetBelow(a, TCP_FLAGS, 0);
    GetBelow(a, UDP, 0);
    GetBelow(a, UDP, 1);
    GetBelow(a, SCTP, 0);
    GetBelow(a, SCTP, 1);
    GetBelow(a, kind, 0);
    GetBelow(a, kind, 1);
  }

  lemma V4Widths(a: Attrs)
    requires Shaped(a)
    ensures V4Of(a).src < U32 && V4Of(a).dst < U32 && TpOk(V4Of(a).tp) && V4Of(a).sha < U48 && V4Of(a).tha < U48
  {
    GetBelow(a, IPV4, 0);
    GetBelow(a, IPV4, 1);
    GetBelow(a, ARP, 0);
    GetBelow(a, ARP, 1);
    GetBelow(a, ARP, 3);
    GetBelow(a, ARP, 4);
    PortWidths(a, ICMP, if IPV4 in a then PortsOf(a) else NO_TP);
  }

  lemma V6Widths(a: Attrs)
    requires Shaped(a)
    ensures V6Of(a).src < U128 && V6Of(a).dst < U128 && V6Of(a).flowLabel < U32 && TpOk(V6Of(a).tp)
    ensures V6Of(a).nd.target < U128 && V6Of(a).nd.sll < U48 && V6Of(a).nd.tll < U48
  {
    GetBelow(a, IPV6, 0);
    GetBelow(a, IPV6, 1);
    GetBelow(a, IPV6, 2);
    GetBelow(a, ND, 0);
    GetBelow(a, ND, 1);
    GetBelow(a, ND, 2);
    PortWidths(a, ICMPV6, if IPV4 in a then NO_TP else PortsOf(a));
  }

  lemma FromWidths(a: Attrs)
    requires Shaped(a) && FromAttrs(a).Some?
    ensures WidthsOk(FromAttrs(a).value)
  {
    if TUNNEL in a && a[TUNNEL].Nest? {
      ScanWidths(a[TUNNEL].attrs, TunState(NO_TUN, false));
    }
    EthWidths(a);
    PhyWidths(a);
    IpWidths(a);
    V4Widths(a);
    V6Widths(a);
  }

  /** The VLAN header is gone, or was never there. */
  lemma UnwrapAccepted(a: Attrs, b: Attrs)
    requires Unwrap(a) == Some(b) && FromAttrs(b).Some? && ETHERNET in b
    ensures Tagged(FromAttrs(b).value) ==> TagPresent(FromAttrs(b).value.eth.tci)
  {
    if VLAN !in b && ETHERTYPE in b && Get(b, ETHERTYPE, 0) == ETH_P_8021Q {
      if ETHERNET in a && ETHERTYPE in a && Get(a, ETHERTYPE, 0) == ETH_P_8021Q && TagPresent(Get(a, VLAN, 0)) {
        ParseListKeeps(a[ENCAP].attrs, a - {ETHERTYPE, ENCAP}, VLAN);
      }
    }
  }

  lemma {:induction false} ParseListKeeps(attrs: seq<Attr>, a: Attrs, kind: nat)
    requires kind in a
    ensures ParseList(attrs, a).Some? ==> kind in ParseList(attrs, a).value
    decreases |attrs|
  {
    if attrs != [] && attrs[0].kind !in a {
      ParseListKeeps(attrs[1..], a[attrs[0].kind := attrs[0].body], kind);
    }
  }

  lemma FragAccepted(a: Attrs)
    requires ValuesOk(a) && FromAttrs(a).Some? && Expected(FromAttrs(a).value) <= a.Keys
    ensures var k := FromAttrs(a).value;
            k.eth.etherType == ETH_P_IP || k.eth.etherType == ETH_P_IPV6 ==> k.ip.frag <= FRAG_MAX
  {
    var k := FromAttrs(a).value;
    if k.eth.etherType == ETH_P_IP {
      assert IPV4 in Expected(k);
    } else if k.eth.etherType == ETH_P_IPV6 {
      assert IPV6 in Expected(k);
    }
  }

  /** Every key that the kernel takes from user space can be dumped and installed
      again: the parser accepts its own keys' attributes. */
  lemma DumpAccepted(attrs: seq<Attr>, k: Key)
    requires ParseKey(attrs) == Some(k)
    ensures WidthsOk(k) && Accepted(k) && ParseKey(Serialise(k)) == Some(Restored(k))
  {
    var a := ParseList(attrs, map[]).value;
    var b := Unwrap(a).value;
    ParseListShaped(attrs, map[]);
    UnwrapShaped(a);
    FromWidths(b);
    assert ETHERNET in Expected(k);
    UnwrapAccepted(a, b);
    FragAccepted(b);
    ParsesBack(k);
  }

  lemma RestoredStable(k: Key)
    ensures Restored(Restored(k)) == Restored(k)
  {
    var r := Restored(k);
    assert k.eth.etherType == ETH_P_IP ==> Transport(r, false) == Transport(k, false);
    assert k.eth.etherType == ETH_P_IPV6 ==> Transport(r, true) == Transport(k, true);
  }

  /** After one round nothing changes any more: what user space installs, dumps and
      installs again is well formed and from then on dumps as itself. */
  lemma DumpStable(attrs: seq<Attr>, k: Key, r: Key)
    requires ParseKey(attrs) == Some(k) && ParseKey(Serialise(k)) == Some(r)
    ensures ParseKey(Serialise(r)) == Some(r) && WellFormed(r) && Serialise(r) == Serialise(k)
  {
    DumpAccepted(attrs, k);
    DumpAccepted(Serialise(k), r);
    RestoredStable(k);
    RestoredExactly(r);
    SameDump(k);
  }

  /** What is lost is not written. */
  lemma SameDump(k: Key)
    requires WidthsOk(k)
    ensures Serialise(Restored(k)) == Serialise(k)
  {
    SameKinds(k);
    SameOuter(k);
    SameInner(k);
    assert BodyFor(Restored(k), VLAN) == BodyFor(k, VLAN);
  }

  lemma SameOuter(k: Key)
    ensures Emit(Bodies(Restored(k)), OuterKinds(k)) == Emit(Bodies(k), OuterKinds(k))
  {
    OuterCarries(k);
    forall t | t in OuterKinds(k) ensures Bodies(Restored(k))(t) == Bodies(k)(t) {
      SameOuterBody(k, t);
    }
    EmitSame(Bodies(Restored(k)), Bodies(k), OuterKinds(k));
  }

  lemma SameInner(k: Key)
    ensures Emit(Bodies(Restored(k)), InnerKinds(k)) == Emit(Bodies(k), InnerKinds(k))
  {
    forall t | t in InnerKinds(k) ensures Bodies(Restored(k))(t) == Bodies(k)(t) {
      SameInnerBody(k, t);
    }
    EmitSame(Bodies(Restored(k)), Bodies(k), InnerKinds(k));
  }

  lemma SameKinds(k: Key)
    ensures OuterKinds(Restored(k)) == OuterKinds(k) && InnerKinds(Restored(k)) == InnerKinds(k)
    ensures Tagged(Restored(k)) == Tagged(k)
  {
    SameTransport(k);
    if k.eth.etherType == ETH_P_IPV6 && ICMPV6 in Transport(k, true) {
      SameNd(k);
    }
  }

  lemma SameOuterBody(k: Key, t: nat)
    requires t in {PRIORITY, SKB_MARK, ETHERNET} || (t == TUNNEL && k.tun.dst != 0) || t == IN_PORT
    ensures BodyFor(Restored(k), t) == BodyFor(k, t)
  {
    if t == TUNNEL {
      SameTunnel(k.tun);
    }
  }

  lemma SameTunnel(t: Tun)
    ensures TunAttrs(TunRestored(t)) == TunAttrs(t)
  {
  }

  lemma SameInnerBody(k: Key, t: nat)
    requires t in InnerKinds(k)
    ensures BodyFor(Restored(k), t) == BodyFor(k, t)
  {
    InnerDistinct(k);
    if t in {TCP, TCP_FLAGS, UDP, SCTP, ICMP, ICMPV6} {
      SamePorts(k, t);
    }
  }

  lemma SamePorts(k: Key, t: nat)
    requires t in InnerKinds(k) && t in {TCP, TCP_FLAGS, UDP, SCTP, ICMP, ICMPV6}
    ensures BodyFor(Restored(k), t) == BodyFor(k, t)
  {
  }

  lemma {:induction false} EmitSame(f: nat -> Body, g: nat -> Body, kinds: seq<nat>)
    requires forall t | t in kinds :: f(t) == g(t)
    ensures Emit(f, kinds) == Emit(g, kinds)
    decreases |kinds|
  {
    if kinds != [] {
      EmitSame(f, g, kinds[1..]);
    }
  }

  // ------------------------------------------------------ the code that reads

  /** ovs_match_from_nlattrs() without a mask, with the loops over the attributes. */
  method ReadKey(attrs: seq<Attr>) returns (r: Option<Key>)
    ensures r == ParseKey(attrs)
  {
    var found := ParseNested(attrs, map[]);
    if found.None? {
      return None;
    }
    var inner := UnwrapVlan(found.value);
    if inner.None? {
      return None;
    }
    var a := inner.value;
    r := ReadAttrs(a);
    if r.Some? && !(Expected(r.value) <= a.Keys) {
      r := None;
    }
  }

  method UnwrapVlan(a: Attrs) returns (r: Option<Attrs>)
    ensures r == Unwrap(a)
  {
    if !(ETHERNET in a && ETHERTYPE in a && Get(a, ETHERTYPE, 0) == ETH_P_8021Q) {
      return Some(a);
    }
    if !(VLAN in a && ENCAP in a && a[ENCAP].Nest?) {
      return None;
    }
    var rest: Attrs := a - {ETHERTYPE, ENCAP};
    var tci := Get(a, VLAN, 0);
    if TagPresent(tci) {
      r := ParseNested(a[ENCAP].attrs, rest);
    } else if tci == 0 && a[ENCAP].attrs == [] {
      r := Some(rest);
    } else {
      r := None;
    }
  }

  /** ovs_key_from_nlattrs(). */
  method ReadAttrs(a: Attrs) returns (r: Option<Key>)
    ensures r == FromAttrs(a)
  {
    var tun := Some(NO_TUN);
    if TUNNEL in a && a[TUNNEL].Nest? {
      tun := ScanTunnel(a[TUNNEL].attrs);
    }
    if tun.None? || !ValuesOk(a) || !(a.Keys <= KNOWN) {
      return None;
    }
    r := Some(Key(tun.value, PhyOf(a), EthOf(a), IpOf(a), V4Of(a), V6Of(a)));
  }

  /** Through the code: every well-formed, acceptable key is read back from the attributes
      that are written for it. */
  method ReadBack(k: Key) returns (r: Option<Key>)
    requires WidthsOk(k)
    ensures r == Some(k) <==> WellFormed(k) && Accepted(k)
  {
    RoundTripExactly(k);
    r := ReadKey(Serialise(k));
  }
}
