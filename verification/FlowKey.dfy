/**
  Flow keys and masks of the kernel datapath (datapath/flow.c): keys are compared
  a machine word at a time, and only within the part of the key that a mask
  covers.
 */
module FlowKey {

  type Word = bv64

  /** sizeof(long) and sizeof(struct sw_flow_key), in bytes and in words. */
  const LONG: nat := 8
  const KEY_BYTES: nat := 128
  const KEY_WORDS: nat := 16

  type Key = k: seq<Word> | |k| == KEY_WORDS witness ZeroWords()

  function ZeroWords(): seq<Word> { seq(KEY_WORDS, i => 0 as Word) }

  function And(a: Word, b: Word): Word { a & b }

  function OrXor(d: Word, a: Word, b: Word): Word { d | (a ^ b) }

  /** struct sw_flow_key_range, in bytes. */
  datatype Range = Range(start: nat, end: nat)

  /** The value part of struct sw_flow_mask. */
  datatype Mask = Mask(range: Range, key: Key)

  predicate RangeOk(r: Range) {
    r.start <= r.end <= KEY_BYTES && r.start % LONG == 0 && r.end % LONG == 0
  }

  predicate InRange(r: Range, w: nat) {
    r.start <= w * LONG < r.end
  }

  /** Mask words outside the mask's range are zero. */
  ghost predicate MaskOk(m: Mask) {
    && RangeOk(m.range)
    && (forall w | 0 <= w < KEY_WORDS && !InRange(m.range, w) :: m.key[w] == 0)
  }

  // ------------------------------------------------------ building a mask

  function RoundDown(x: nat): nat { x / LONG * LONG }

  function RoundUp(x: nat): nat { (x + LONG - 1) / LONG * LONG }

  /** update_range__(). */
  function UpdateRange(r: Range, offset: nat, size: nat): Range {
    var (start, end) := (RoundDown(offset), RoundUp(offset + size));
    if r.start == r.end then Range(start, end)
    else Range(if r.start > start then start else r.start, if r.end < end then end else r.end)
  }

  /** One SW_FLOW_KEY_PUT or SW_FLOW_KEY_MEMCPY on a mask: 'words' replace the words
      that the field at 'offset' touches. */
  datatype Put = Put(offset: nat, size: nat, words: seq<Word>)

  predicate PutOk(p: Put) {
    && p.size > 0 && p.offset + p.size <= KEY_BYTES
    && |p.words| == (RoundUp(p.offset + p.size) - RoundDown(p.offset)) / LONG
  }

  function ApplyPut(m: Mask, p: Put): Mask
    requires PutOk(p)
  {
    var lo := RoundDown(p.offset) / LONG;
    Mask(UpdateRange(m.range, p.offset, p.size), m.key[..lo] + p.words + m.key[lo + |p.words|..])
  }

  /** The mask that ovs_match_init() and then 'puts' produce. */
  function BuildMask(puts: seq<Put>): Mask
    requires forall p | p in puts :: PutOk(p)
  {
    if puts == [] then Mask(Range(0, 0), ZeroWords())
    else ApplyPut(BuildMask(puts[..|puts| - 1]), puts[|puts| - 1])
  }

  lemma RangeGrows(r: Range, offset: nat, size: nat)
    requires RangeOk(r) && size > 0 && offset + size <= KEY_BYTES
    ensures var r' := UpdateRange(r, offset, size);
            && RangeOk(r')
            && (forall w | 0 <= w < KEY_WORDS && InRange(r, w) :: InRange(r', w))
            && r'.start <= RoundDown(offset) && RoundUp(offset + size) <= r'.end
  {
  }

  lemma PutKeepsMask(m: Mask, p: Put)
    requires MaskOk(m) && PutOk(p)
    ensures MaskOk(ApplyPut(m, p))
  {
    var m' := ApplyPut(m, p);
    RangeGrows(m.range, p.offset, p.size);
    var lo := RoundDown(p.offset) / LONG;
    forall w | 0 <= w < KEY_WORDS && !InRange(m'.range, w) ensures m'.key[w] == 0 {
      assert w < lo || w >= lo + |p.words|;
    }
  }

  /** However the attribute parser fills a mask, nothing is set outside the range
      it records. */
  lemma {:induction false} BuiltMaskOk(puts: seq<Put>)
    requires forall p | p in puts :: PutOk(p)
    ensures MaskOk(BuildMask(puts))
  {
    if puts != [] {
      BuiltMaskOk(puts[..|puts| - 1]);
      PutKeepsMask(BuildMask(puts[..|puts| - 1]), puts[|puts| - 1]);
    }
  }

  /** ovs_sw_flow_mask_set(): an exact match on everything in 'r', for a flow that
      comes without a mask attribute. */
  function SetMask(m: Mask, r: Range, value: Word): Mask {
    Mask(r, seq(KEY_WORDS, w requires 0 <= w < KEY_WORDS => if InRange(r, w) then value else m.key[w]))
  }

  /** Taking over the key's range is safe exactly when the mask had set nothing
      outside it: eth.tci, the one field put in such a mask beforehand, has to lie
      in the range of the key. */
  lemma SetMaskOkExactly(m: Mask, r: Range, value: Word)
    requires RangeOk(r)
    ensures MaskOk(SetMask(m, r, value)) <==>
            forall w | 0 <= w < KEY_WORDS && !InRange(r, w) :: m.key[w] == 0
  {
    var s := SetMask(m, r, value);
    forall w | 0 <= w < KEY_WORDS && !InRange(r, w) ensures s.key[w] == m.key[w] {
    }
    if MaskOk(s) {
      forall w | 0 <= w < KEY_WORDS && !InRange(r, w) ensures m.key[w] == 0 {
        assert s.key[w] == 0;
      }
    }
  }

  /** The range of a key or a mask covers every field that was put in it. */
  lemma {:induction false} RangeCovers(puts: seq<Put>, p: Put, w: nat)
    requires (forall q | q in puts :: PutOk(q)) && p in puts
    requires w < KEY_WORDS && RoundDown(p.offset) <= w * LONG < RoundUp(p.offset + p.size)
    ensures InRange(BuildMask(puts).range, w)
  {
    var (front, last) := (puts[..|puts| - 1], puts[|puts| - 1]);
    assert puts == front + [last] && last in puts;
    BuiltMaskOk(front);
    if p != last {
      RangeCovers(front, p, w);
    }
    PutCovers(BuildMask(front).range, last, w);
  }

  lemma PutCovers(r: Range, p: Put, w: nat)
    requires RangeOk(r) && PutOk(p) && w < KEY_WORDS
    requires InRange(r, w) || RoundDown(p.offset) <= w * LONG < RoundUp(p.offset + p.size)
    ensures InRange(UpdateRange(r, p.offset, p.size), w)
  {
    RangeGrows(r, p.offset, p.size);
  }

  const TCI_OFFSET: nat := 48
  const TYPE_OFFSET: nat := 50

  /** The Ethernet type, which every key has. */
  predicate PutsType(puts: seq<Put>) {
    exists p | p in puts :: p.offset == TYPE_OFFSET && p.size == 2
  }

  /** All that is put in a mask while its key is being read: eth.tci, for an untagged
      key. */
  predicate OnlyTci(puts: seq<Put>) {
    puts == [] || (|puts| == 1 && puts[0].offset == TCI_OFFSET && puts[0].size == 2)
  }

  /** The mask of a flow without a mask attribute is well formed for every key: the
      range of the key reaches eth.tci, because it reaches the Ethernet type in the same
      word. */
  lemma ExactMaskOk(puts: seq<Put>, tci: seq<Put>, value: Word)
    requires (forall p | p in puts :: PutOk(p)) && PutsType(puts)
    requires (forall p | p in tci :: PutOk(p)) && OnlyTci(tci)
    ensures MaskOk(SetMask(BuildMask(tci), BuildMask(puts).range, value))
  {
    var r := BuildMask(puts).range;
    BuiltMaskOk(puts);
    var p :| p in puts && p.offset == TYPE_OFFSET && p.size == 2;
    RangeCovers(puts, p, 6);
    TciWord(tci);
    SetMaskOkExactly(BuildMask(tci), r, value);
  }

  lemma TciWord(tci: seq<Put>)
    requires (forall p | p in tci :: PutOk(p)) && OnlyTci(tci)
    ensures forall w | 0 <= w < KEY_WORDS && w != 6 :: BuildMask(tci).key[w] == 0
  {
    BuiltMaskOk(tci);
    if tci != [] {
      assert tci[..0] == [];
      assert BuildMask(tci).range == Range(48, 56);
    }
  }

  // ------------------------------------------------------- masking a key

  /** Agreement under the whole mask. */
  ghost predicate EqualUnder(m: Mask, a: Key, b: Key) {
    forall w | 0 <= w < KEY_WORDS :: And(a[w], m.key[w]) == And(b[w], m.key[w])
  }

  /** 'k' is 'a' under the mask, within the mask's range; what it holds elsewhere
      does not matter. */
  ghost predicate MaskedFrom(m: Mask, k: Key, a: Key) {
    forall w | 0 <= w < KEY_WORDS && InRange(m.range, w) :: k[w] == And(a[w], m.key[w])
  }

  ghost predicate EqualIn(r: Range, a: Key, b: Key) {
    forall w | 0 <= w < KEY_WORDS && InRange(r, w) :: a[w] == b[w]
  }

  /** Comparing masked keys within the word-aligned range decides agreement under
      the whole mask. */
  lemma RangeSuffices(m: Mask, ka: Key, a: Key, kb: Key, b: Key)
    requires MaskOk(m) && MaskedFrom(m, ka, a) && MaskedFrom(m, kb, b)
    ensures EqualIn(m.range, ka, kb) <==> EqualUnder(m, a, b)
  {
    forall w | 0 <= w < KEY_WORDS && !InRange(m.range, w) ensures And(a[w], m.key[w]) == And(b[w], m.key[w]) {
      AndZero(a[w]);
      AndZero(b[w]);
    }
  }

  lemma AndZero(a: Word)
    ensures And(a, 0) == 0
  {
  }

  /** The words of a key within a range: what ovs_flow_hash() reads. */
  function Slice(r: Range, k: Key): seq<Word>
    requires RangeOk(r)
  {
    k[r.start / LONG..r.end / LONG]
  }

  lemma SliceEqual(r: Range, a: Key, b: Key)
    requires RangeOk(r) && EqualIn(r, a, b)
    ensures Slice(r, a) == Slice(r, b)
  {
    forall i | 0 <= i < |Slice(r, a)| ensures Slice(r, a)[i] == Slice(r, b)[i] {
      assert InRange(r, r.start / LONG + i);
    }
  }

  /** The words of the range below byte 'at' are masked, the others are as in 'dst'. */
  ghost predicate MaskedBelow(m: Mask, out: Key, src: Key, dst: Key, at: nat) {
    forall w | 0 <= w < KEY_WORDS :: out[w] == if m.range.start <= w * LONG < at then And(src[w], m.key[w]) else dst[w]
  }

  lemma MaskNext(m: Mask, out: Key, src: Key, dst: Key, w: nat)
    requires w < KEY_WORDS && m.range.start <= w * LONG && MaskedBelow(m, out, src, dst, w * LONG)
    ensures MaskedBelow(m, out[w := And(src[w], m.key[w])], src, dst, (w + 1) * LONG)
  {
  }

  /** ovs_flow_key_mask(): 'dst' starts out with arbitrary contents. */
  method KeyMask(dst: Key, src: Key, m: Mask) returns (out: Key)
    requires RangeOk(m.range)
    ensures MaskedFrom(m, out, src)
    ensures forall w | 0 <= w < KEY_WORDS && !InRange(m.range, w) :: out[w] == dst[w]
  {
    out := dst;
    var w, n := m.range.start / LONG, m.range.end / LONG;
    while w < n
      invariant m.range.start / LONG <= w <= n
      invariant MaskedBelow(m, out, src, dst, w * LONG)
    {
      MaskNext(m, out, src, dst, w);
      out := out[w := And(src[w], m.key[w])];
      w := w + 1;
    }
  }

  /** __cmp_key(): accumulates the differences of the words in the range. */
  method CmpKey(a: Key, b: Key, r: Range) returns (same: bool)
    requires r.start % LONG == 0 && r.end % LONG == 0 && r.end <= KEY_BYTES
    ensures same <==> EqualIn(r, a, b)
  {
    var diffs: Word := 0;
    var w, n := r.start / LONG, r.end / LONG;
    while w < n
      invariant r.start / LONG <= w && (w <= n || w == r.start / LONG)
      invariant diffs == 0 <==> forall v | 0 <= v < KEY_WORDS && r.start / LONG <= v < w :: a[v] == b[v]
    {
      OrXorZero(diffs, a[w], b[w]);
      diffs := OrXor(diffs, a[w], b[w]);
      w := w + 1;
    }
    same := diffs == 0;
    forall v | 0 <= v < KEY_WORDS ensures InRange(r, v) <==> r.start / LONG <= v < n {
    }
  }

  lemma XorZero(a: Word, b: Word)
    ensures a ^ b == 0 <==> a == b
  {
  }

  lemma OrZero(d: Word, x: Word)
    ensures d | x == 0 <==> d == 0 && x == 0
  {
  }

  lemma OrXorZero(d: Word, a: Word, b: Word)
    ensures OrXor(d, a, b) == 0 <==> d == 0 && a == b
  {
    XorZero(a, b);
    OrZero(d, a ^ b);
  }
}
