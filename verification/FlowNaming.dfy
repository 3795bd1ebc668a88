/**
  Naming a flow by the key it was installed with (ovs_flow_lookup_unmasked_key() and
  ovs_flow_cmp_unmasked_key() in datapath/flow.c): which flow a deletion or an update
  with that key hits.
 */
module FlowNaming {
  import opened Collections
  import opened FlowKey
  import opened FlowTable
  import opened FlowMasks
  import opened FlowUpdate
  import opened FlowSpec
  import opened Datapath

  // ------------------------------------------------ which flow a key names

  /** A flow's own key always finds some flow: the flow itself exactly when no flow whose
      mask is tried earlier agrees with the key. */
  lemma OwnKeyFinds(h: Hashing, s: State, id: FlowId, found: Option<FlowId>)
    requires GoodState(h, s) && id in s.flows && Finds(s, s.flows[id].unmasked, found)
    ensures found.Some? && found.value in s.flows
    ensures found.value == id <==> NothingEarlier(s.flows, s.masks, s.list, s.flows[id].unmasked, s.flows[id].mask)
  {
    assert FlowOk(h, s.masks, s.flows[id]);
    OwnKeyFindsExactly(s.flows, s.masks, s.list, id, found);
    assert Matches(s.masks, s.flows[id], s.flows[id].unmasked);
  }

  /** A deletion hits the flow that its key finds, if the compared part of the keys is
      the same. */
  lemma DelHits(p: Spec, key: Key, end: nat, out: Out, p': Spec)
    requires DelStep(p, key, end, true, out, p') && out.found.Some?
    ensures out.found.value in p.entries
    ensures if SameUnmasked(p.entries[out.found.value].key, key, end)
            then out.err == Success && p' == SpecDrop(p, out.found.value)
            else out.err == ENOENT && p' == p
  {
  }

  lemma DelOwn(p: Spec, id: FlowId, end: nat, out: Out, p': Spec)
    requires id in p.entries && DelStep(p, p.entries[id].key, end, true, out, p') && out.found.Some?
    ensures out.found.value == id ==> out.err == Success && p' == SpecDrop(p, id) && id !in p'.entries
    ensures out.found.value != id ==> id in p'.entries
  {
    DelHits(p, p.entries[id].key, end, out, p');
  }

  /** Deleting with the key that a flow was installed with, in every good state:
      - the flow goes exactly when no earlier flow agrees with its key;
      - otherwise the first flow that agrees goes, if the compared part of the keys is
        the same;
      - otherwise nothing goes. */
  lemma OwnKeyDeletes(h: Hashing, s: State, id: FlowId, end: nat, out: Out, p: Spec)
    requires GoodState(h, s) && id in s.flows && Linked(s)
    requires DelStep(Abs(s), s.flows[id].unmasked, end, true, out, p)
    ensures out.found.Some? && out.found.value in s.flows
    ensures id !in p.entries <==> NothingEarlier(s.flows, s.masks, s.list, s.flows[id].unmasked, s.flows[id].mask)
    ensures id !in p.entries ==> out.err == Success && p == SpecDrop(Abs(s), id)
    ensures id in p.entries ==> out.found.value != id
    ensures id in p.entries ==>
              if SameUnmasked(s.flows[out.found.value].unmasked, s.flows[id].unmasked, end)
              then out.err == Success && p == SpecDrop(Abs(s), out.found.value)
              else out.err == ENOENT && p == Abs(s)
  {
    FindsIsSpec(h, s, s.flows[id].unmasked, out.found);
    OwnKeyFinds(h, s, id, out.found);
    assert Abs(s).entries[id].key == s.flows[id].unmasked;
    DelOwn(Abs(s), id, end, out, p);
    DelHits(Abs(s), s.flows[id].unmasked, end, out, p);
  }

  /** The same for OVS_FLOW_CMD_SET: the actions are those of the flow itself exactly
      when no earlier flow agrees; otherwise they go to the first flow that agrees, or
      nowhere. */
  lemma OwnKeyUpdates(h: Hashing, s: State, id: FlowId, op: Op, out: Out, p: Spec)
    requires GoodState(h, s) && id in s.flows && Linked(s)
    requires op.Put? && op.cmd == Set && op.x.key == s.flows[id].unmasked && PutStep(Abs(s), op, out, p)
    ensures out.found.Some? && out.found.value in s.flows
    ensures var (key, f) := (s.flows[id].unmasked, out.found.value);
            if NothingEarlier(s.flows, s.masks, s.list, key, s.flows[id].mask) then
              out.err == Success && p == SpecActs(Abs(s), id, op.acts)
            else if SameUnmasked(s.flows[f].unmasked, key, op.x.end) then
              f != id && out.err == Success && p == SpecActs(Abs(s), f, op.acts)
            else out.err == EINVAL && p == Abs(s)
  {
    FindsIsSpec(h, s, s.flows[id].unmasked, out.found);
    OwnKeyFinds(h, s, id, out.found);
  }

  // --------------------------------------------------- two flows that overlap

  function Add(x: Match): Op {
    Op.Put(New, true, x, 0, true, 0, true, true)
  }

  function Remove(x: Match): Op {
    Del(x.key, x.end, true)
  }

  /** 'b' can be installed after 'a', and then hides it: its mask is tried first and
      agrees with the key of 'a'. */
  ghost predicate Hides(b: Match, a: Match) {
    a.mask != b.mask && !EqualUnder(a.mask, a.key, b.key) && EqualUnder(b.mask, b.key, a.key)
  }

  lemma AddToNothing(a: Match, out: Out, p: Spec)
    requires SpecStep(Spec(map[], []), Add(a), out, p)
    ensures out.err == Success && p == Spec(map[out.id := Entry(a.mask, a.key, 0)], [a.mask])
  {
    assert out.found == None;
    assert [a.mask] + [] == [a.mask];
  }

  lemma AddSecond(a: Match, b: Match, i: FlowId, out: Out, p: Spec)
    requires Hides(b, a) && SpecStep(Spec(map[i := Entry(a.mask, a.key, 0)], [a.mask]), Add(b), out, p)
    ensures out.err == Success && out.id != i
    ensures p == Spec(map[i := Entry(a.mask, a.key, 0), out.id := Entry(b.mask, b.key, 0)], [b.mask, a.mask])
  {
    assert out.found == None;
  }

  lemma FindsSecond(a: Match, b: Match, i: FlowId, j: FlowId, found: Option<FlowId>)
    requires Hides(b, a) && i != j
    requires SpecFinds(Spec(map[i := Entry(a.mask, a.key, 0), j := Entry(b.mask, b.key, 0)], [b.mask, a.mask]), a.key, found)
    ensures found == Some(j)
  {
    var p := Spec(map[i := Entry(a.mask, a.key, 0), j := Entry(b.mask, b.key, 0)], [b.mask, a.mask]);
    assert j in p.entries;
    assert Rank(p.order, b.mask) == 0 && Rank(p.order, a.mask) > 0;
  }

  /** In every run that installs 'a', then 'b', and then deletes with the key of 'a', it
      is 'a' that stays.  The deletion removes 'b' if the compared part of the keys is
      the same, and nothing otherwise. */
  lemma HiddenFlowStays(a: Match, b: Match, ps: seq<Spec>, outs: seq<Out>)
    requires Hides(b, a)
    requires SpecRun(ps, [Add(a), Add(b), Remove(a)], outs) && ps[0] == Spec(map[], [])
    ensures outs[0].err == Success && outs[1].err == Success && outs[0].id != outs[1].id
    ensures outs[0].id in ps[3].entries
    ensures if SameUnmasked(b.key, a.key, a.end) then outs[2].err == Success && outs[1].id !in ps[3].entries
            else outs[2].err == ENOENT && outs[1].id in ps[3].entries
  {
    var ops := [Add(a), Add(b), Remove(a)];
    assert SpecStep(ps[0], ops[0], outs[0], ps[1]);
    AddToNothing(a, outs[0], ps[1]);
    assert SpecStep(ps[1], ops[1], outs[1], ps[2]);
    AddSecond(a, b, outs[0].id, outs[1], ps[2]);
    assert SpecStep(ps[2], ops[2], outs[2], ps[3]);
    FindsSecond(a, b, outs[0].id, outs[1].id, outs[2].found);
  }

  /** The same through the commands of a new datapath. */
  method InstallAndDelete(h: Hashing, seed: nat, a: Match, b: Match) returns (d: Datapath, outs: seq<Out>)
    requires MatchOk(a) && MatchOk(b) && Hides(b, a)
    ensures d.Valid() && |outs| == 3 && outs[0].id != outs[1].id && outs[0].id in Abs(d.dp).entries
    ensures if SameUnmasked(b.key, a.key, a.end) then outs[2].err == Success && outs[1].id !in Abs(d.dp).entries
            else outs[2].err == ENOENT && outs[1].id in Abs(d.dp).entries
  {
    d := new Datapath(h, seed);
    ghost var ps;
    outs, ps := Run(d, [Add(a), Add(b), Remove(a)]);
    HiddenFlowStays(a, b, ps, outs);
  }

  // --------------------------------------------- flows that the parser makes

  /** What the parser puts in a mask on Ethernet addresses for an untagged key: eth.tci
      and the Ethernet type are matched exactly, and words 4 and 5 hold the bits of the
      addresses. */
  function EthPuts(four: Word, five: Word): seq<Put> {
    [FlowKey.Put(48, 2, [0xffff]), FlowKey.Put(50, 2, [0xffff_ffff]),
     FlowKey.Put(36, 6, [four, five]), FlowKey.Put(42, 6, [five])]
  }

  /** What it puts there for a mask on the tunnel destination: the destination and the
      tunnel flags. */
  function TunnelPuts(): seq<Put> {
    [FlowKey.Put(12, 4, [0xffff_ffff_0000_0000]), FlowKey.Put(16, 2, [0])]
  }

  ghost predicate AllOk(puts: seq<Put>) {
    forall q | q in puts :: PutOk(q)
  }

  lemma BuildNext(puts: seq<Put>, p: Put)
    requires AllOk(puts) && PutOk(p)
    ensures AllOk(puts + [p]) && BuildMask(puts + [p]) == ApplyPut(BuildMask(puts), p)
  {
    assert (puts + [p])[..|puts|] == puts;
  }

  lemma PutOne(puts: seq<Put>, p: Put, i: nat)
    requires AllOk(puts) && PutOk(p) && |p.words| == 1 && i < KEY_WORDS && RoundDown(p.offset) == i * LONG
    ensures AllOk(puts + [p])
    ensures BuildMask(puts + [p]) ==
            Mask(UpdateRange(BuildMask(puts).range, p.offset, p.size), BuildMask(puts).key[i := p.words[0]])
  {
    BuildNext(puts, p);
    var k := BuildMask(puts).key;
    assert RoundDown(p.offset) / LONG == i;
    SpliceOne(k, i, p.words);
  }

  lemma SpliceOne(k: Key, i: nat, words: seq<Word>)
    requires |words| == 1 && i < KEY_WORDS
    ensures k[..i] + words + k[i + |words|..] == k[i := words[0]]
  {
  }

  lemma SpliceTwo(k: Key, i: nat, words: seq<Word>)
    requires |words| == 2 && i + 1 < KEY_WORDS
    ensures k[..i] + words + k[i + |words|..] == k[i := words[0]][i + 1 := words[1]]
  {
  }

  lemma PutTwo(puts: seq<Put>, p: Put, i: nat)
    requires AllOk(puts) && PutOk(p) && |p.words| == 2 && i + 1 < KEY_WORDS && RoundDown(p.offset) == i * LONG
    ensures AllOk(puts + [p])
    ensures BuildMask(puts + [p]) ==
            Mask(UpdateRange(BuildMask(puts).range, p.offset, p.size),
                 BuildMask(puts).key[i := p.words[0]][i + 1 := p.words[1]])
  {
    BuildNext(puts, p);
    var k := BuildMask(puts).key;
    assert RoundDown(p.offset) / LONG == i;
    SpliceTwo(k, i, p.words);
  }

  /** The last two words of an address mask and the exact type. */
  function WithEth(k: Key, four: Word, five: Word): Key {
    k[6 := 0xffff_ffff][4 := four][5 := five]
  }

  function EthRange(r: Range): Range {
    UpdateRange(UpdateRange(UpdateRange(UpdateRange(r, 48, 2), 50, 2), 36, 6), 42, 6)
  }

  lemma EthPutsOk(four: Word, five: Word)
    ensures var e := EthPuts(four, five); PutOk(e[0]) && PutOk(e[1]) && PutOk(e[2]) && PutOk(e[3])
    ensures RoundDown(48) == RoundDown(50) == 6 * LONG && RoundDown(36) == 4 * LONG && RoundDown(42) == 5 * LONG
  {
  }

  lemma TypeMask(before: seq<Put>, four: Word, five: Word)
    requires AllOk(before)
    ensures var (e, m) := (EthPuts(four, five), BuildMask(before));
            && AllOk(before + [e[0]] + [e[1]])
            && BuildMask(before + [e[0]] + [e[1]]) ==
               Mask(UpdateRange(UpdateRange(m.range, 48, 2), 50, 2), m.key[6 := 0xffff][6 := 0xffff_ffff])
  {
    EthPutsOk(four, five);
    var e := EthPuts(four, five);
    PutOne(before, e[0], 6);
    PutOne(before + [e[0]], e[1], 6);
  }

  lemma AddressPuts(before: seq<Put>, four: Word, five: Word)
    requires AllOk(before)
    ensures var (e, m) := (EthPuts(four, five), BuildMask(before));
            && AllOk(before + [e[2]] + [e[3]])
            && BuildMask(before + [e[2]] + [e[3]]) ==
               Mask(UpdateRange(UpdateRange(m.range, 36, 6), 42, 6), m.key[4 := four][5 := five][5 := five])
  {
    EthPutsOk(four, five);
    var e := EthPuts(four, five);
    PutTwo(before, e[2], 4);
    PutOne(before + [e[2]], e[3], 5);
  }

  /** The four puts set three words and reach from the source address to the type. */
  lemma EthMask(before: seq<Put>, four: Word, five: Word)
    requires AllOk(before)
    ensures AllOk(before + EthPuts(four, five))
    ensures BuildMask(before + EthPuts(four, five)) ==
            Mask(EthRange(BuildMask(before).range), WithEth(BuildMask(before).key, four, five))
  {
    var e := EthPuts(four, five);
    TypeMask(before, four, five);
    AddressPuts(before + [e[0]] + [e[1]], four, five);
    InTurn(before, e);
    Overwritten(BuildMask(before).key, four, five);
  }

  lemma InTurn(before: seq<Put>, e: seq<Put>)
    requires |e| == 4
    ensures before + [e[0]] + [e[1]] + [e[2]] + [e[3]] == before + e
  {
  }

  lemma Overwritten(k: Key, four: Word, five: Word)
    ensures k[6 := 0xffff][6 := 0xffff_ffff][4 := four][5 := five][5 := five] == WithEth(k, four, five)
  {
  }

  lemma TunnelMask()
    ensures AllOk(TunnelPuts())
    ensures BuildMask(TunnelPuts()) == Mask(Range(8, 24), ZeroWords()[1 := 0xffff_ffff_0000_0000])
  {
    var e := TunnelPuts();
    PutOne([], e[0], 1);
    PutOne([] + [e[0]], e[1], 2);
    assert [] + [e[0]] + [e[1]] == e;
    assert ZeroWords()[1 := 0xffff_ffff_0000_0000][2 := 0] == ZeroWords()[1 := 0xffff_ffff_0000_0000];
  }

  /** The key of an 802.2 frame, with the given tunnel word and addresses. */
  function FrameKey(tunnel: Word, four: Word, five: Word): Key {
    ZeroWords()[4 := four][6 := 0x0400_0000][5 := five][1 := tunnel]
  }

  const SRC: Word := 0xff_0000_0000       // the first byte of eth.src
  const DST: Word := 0xff_0000            // the first byte of eth.dst
  const FROM: Word := 0x1_0000_ffff       // eth.src starts with 1, in_port is DP_MAX_PORTS
  const TO: Word := 0x1_0000              // eth.dst starts with 1

  /** The ends of the keys' own ranges: the Ethernet type is the last field. */
  const FRAME_END: nat := 56

  lemma FrameBits()
    ensures And(FROM, SRC) == 0x1_0000_0000 && And(TO, DST) == 0x1_0000 && And(0, DST) == 0
    ensures (0 as Word) >> 32 == 0 && (0x1_0000_0000 as Word) >> 32 != 0
    ensures And(0, 0xffff_ffff_0000_0000) == 0 && And(0x1_0000_0000, 0xffff_ffff_0000_0000) == 0x1_0000_0000
  {
  }

  /** The mask that the puts for the addresses leave, alone or after those for a tunnel. */
  lemma AddressMask(four: Word, five: Word)
    ensures AllOk(EthPuts(four, five)) && MaskOk(BuildMask(EthPuts(four, five)))
    ensures BuildMask(EthPuts(four, five)) == Mask(Range(32, 56), WithEth(ZeroWords(), four, five))
  {
    EthMask([], four, five);
    assert [] + EthPuts(four, five) == EthPuts(four, five);
    BuiltMaskOk(EthPuts(four, five));
  }

  lemma TunnelAddressMask(four: Word, five: Word)
    ensures AllOk(TunnelPuts() + EthPuts(four, five)) && MaskOk(BuildMask(TunnelPuts() + EthPuts(four, five)))
    ensures BuildMask(TunnelPuts() + EthPuts(four, five)) ==
            Mask(Range(8, 56), WithEth(ZeroWords()[1 := 0xffff_ffff_0000_0000], four, five))
  {
    TunnelMask();
    EthMask(TunnelPuts(), four, five);
    BuiltMaskOk(TunnelPuts() + EthPuts(four, five));
  }

  /** Both kinds of flow exist with keys and masks that the parser makes.  First, two
      flows that match on the Ethernet addresses: the older one on both, the newer one,
      for another destination, on the source. */
  lemma HiddenByWiderMask()
    ensures AllOk(EthPuts(SRC, DST)) && AllOk(EthPuts(SRC, 0))
    ensures var a := Match(FrameKey(0, FROM, TO), BuildMask(EthPuts(SRC, DST)), FRAME_END);
            var b := Match(FrameKey(0, FROM, 0), BuildMask(EthPuts(SRC, 0)), FRAME_END);
            MatchOk(a) && MatchOk(b) && Hides(b, a) && !SameUnmasked(b.key, a.key, a.end)
  {
    AddressMask(SRC, DST);
    AddressMask(SRC, 0);
    FrameBits();
    var (m, n) := (BuildMask(EthPuts(SRC, DST)), BuildMask(EthPuts(SRC, 0)));
    var (j, k) := (FrameKey(0, FROM, TO), FrameKey(0, FROM, 0));
    DestinationsApart(FROM);
    AgreeExcept(n, k, j, 5);
    DifferAt(m, j, k, 5);
    DifferIn(k, j, FRAME_END, 5);
  }

  lemma DestinationsApart(four: Word)
    ensures var (j, k) := (FrameKey(0, four, TO), FrameKey(0, four, 0));
            j[5] == TO && k[5] == 0 && forall w | 0 <= w < KEY_WORDS && w != 5 :: k[w] == j[w]
    ensures WithEth(ZeroWords(), SRC, DST)[5] == DST && WithEth(ZeroWords(), SRC, 0)[5] == 0
  {
  }

  /** Second, an untunnelled flow that matches on there being no tunnel, and a tunnelled
      one that does not look at the tunnel: the compared part of the keys is the same. */
  lemma HiddenByTunnel()
    ensures AllOk(TunnelPuts() + EthPuts(SRC, 0)) && AllOk(EthPuts(SRC, 0))
    ensures var a := Match(FrameKey(0, FROM, 0), BuildMask(TunnelPuts() + EthPuts(SRC, 0)), FRAME_END);
            var b := Match(FrameKey(0x1_0000_0000, FROM, 0), BuildMask(EthPuts(SRC, 0)), FRAME_END);
            MatchOk(a) && MatchOk(b) && Hides(b, a) && SameUnmasked(b.key, a.key, a.end)
  {
    TunnelAddressMask(SRC, 0);
    AddressMask(SRC, 0);
    FrameBits();
    var (m, n) := (BuildMask(TunnelPuts() + EthPuts(SRC, 0)), BuildMask(EthPuts(SRC, 0)));
    var (j, k) := (FrameKey(0, FROM, 0), FrameKey(0x1_0000_0000, FROM, 0));
    TunnelsApart(FROM, 0);
    AgreeExcept(n, k, j, 1);
    DifferAt(m, j, k, 1);
    AgreeBeyond(k, j, FRAME_END);
  }

  lemma TunnelsApart(four: Word, five: Word)
    ensures var (j, k) := (FrameKey(0, four, five), FrameKey(0x1_0000_0000, four, five));
            && j[1] == 0 && k[1] == 0x1_0000_0000 && (forall w | 0 <= w < KEY_WORDS && w != 1 :: k[w] == j[w])
            && (forall w | 0 <= w < KEY_WORDS && PHY_OFFSET <= w * LONG :: k[w] == j[w])
    ensures WithEth(ZeroWords()[1 := 0xffff_ffff_0000_0000], SRC, 0)[1] == 0xffff_ffff_0000_0000
    ensures WithEth(ZeroWords(), SRC, 0)[1] == 0
  {
  }

  lemma DifferAt(m: Mask, a: Key, b: Key, i: nat)
    requires i < KEY_WORDS && And(a[i], m.key[i]) != And(b[i], m.key[i])
    ensures !EqualUnder(m, a, b)
  {
  }

  lemma DifferIn(a: Key, b: Key, end: nat, i: nat)
    requires i < KEY_WORDS && PHY_OFFSET <= i * LONG < end && a[i] != b[i]
    ensures !SameUnmasked(a, b, end)
  {
    assert InRange(Range(KeyStart(b), end), i);
  }

  /** Without a tunnel in the key, the tunnel words do not count. */
  lemma AgreeBeyond(a: Key, b: Key, end: nat)
    requires b[1] >> 32 == 0 && forall w | 0 <= w < KEY_WORDS && PHY_OFFSET <= w * LONG :: a[w] == b[w]
    ensures SameUnmasked(a, b, end)
  {
  }

  /** Keys that agree but for one word agree under a mask that leaves that word out. */
  lemma AgreeExcept(m: Mask, a: Key, b: Key, i: nat)
    requires i < KEY_WORDS && m.key[i] == 0 && forall w | 0 <= w < KEY_WORDS && w != i :: a[w] == b[w]
    ensures EqualUnder(m, a, b)
  {
    AndZero(a[i]);
    AndZero(b[i]);
  }
}
