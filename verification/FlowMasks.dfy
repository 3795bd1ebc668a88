/**
  Which flow a packet finds, and how flows share reference-counted masks
  (datapath/flow.c).
 */
module FlowMasks {
  import opened Collections
  import opened FlowKey
  import opened FlowTable

  type Flows = map<FlowId, Flow>
  type Masks = map<MaskId, MaskRef>

  // ------------------------------------------------------- invariants

  ghost predicate FlowOk(h: Hashing, masks: Masks, f: Flow) {
    && f.mask in masks
    && RangeOk(masks[f.mask].mask.range)
    && MaskedFrom(masks[f.mask].mask, f.key, f.unmasked)
    && f.hash == h.hash(Slice(masks[f.mask].mask.range, f.key))
  }

  ghost predicate FlowsOk(h: Hashing, flows: Flows, masks: Masks) {
    forall id | id in flows :: FlowOk(h, masks, flows[id])
  }

  /** The masks on the list, each once, are all well formed and all different. */
  ghost predicate MasksOk(masks: Masks, list: seq<MaskId>) {
    && Distinct(list)
    && (forall m :: m in list <==> m in masks)
    && (forall m | m in masks :: MaskOk(masks[m].mask))
    && (forall m, n | m in masks && n in masks && m != n :: masks[m].mask != masks[n].mask)
  }

  ghost function Users(flows: Flows, m: MaskId): set<FlowId> {
    set id | id in flows && flows[id].mask == m
  }

  /** A mask's reference count is the number of flows that use it, and never zero. */
  ghost predicate RefsOk(flows: Flows, masks: Masks) {
    forall m | m in masks :: masks[m].refs == |Users(flows, m)| && masks[m].refs > 0
  }

  /** The packet key agrees with the flow under the flow's whole mask. */
  ghost predicate Matches(masks: Masks, f: Flow, key: Key) {
    f.mask in masks && EqualUnder(masks[f.mask].mask, f.unmasked, key)
  }

  /** No two flows share both a mask and a masked key. */
  ghost predicate NoTwins(flows: Flows, masks: Masks) {
    forall i, j | i in flows && j in flows && flows[i].mask == flows[j].mask
                  && Matches(masks, flows[i], flows[j].unmasked) :: i == j
  }

  // ------------------------------------------------- the flow that is found

  function Position(list: seq<MaskId>, m: MaskId): (p: nat)
    ensures p <= |list|
  {
    if list == [] || list[0] == m then 0 else 1 + Position(list[1..], m)
  }

  lemma {:induction false} PositionOf(list: seq<MaskId>, k: nat)
    requires k < |list| && Distinct(list)
    ensures Position(list, list[k]) == k
  {
    if k > 0 {
      DistinctTail(list);
      assert list[k] == list[1..][k - 1];
      PositionOf(list[1..], k - 1);
    }
  }

  lemma {:induction false} PositionHas(list: seq<MaskId>, m: MaskId)
    requires m in list
    ensures Position(list, m) < |list| && list[Position(list, m)] == m
  {
    if list[0] != m {
      PositionHas(list[1..], m);
    }
  }

  /** 'r' is the answer for 'key' by the definition that knows nothing of hashing:
      an installed flow that matches, none with a mask earlier on the list, and none
      at all when there is no answer. */
  ghost predicate IsAnswer(flows: Flows, masks: Masks, list: seq<MaskId>, key: Key, r: Option<FlowId>) {
    match r
    case None => forall id | id in flows :: !Matches(masks, flows[id], key)
    case Some(f) =>
      && f in flows && Matches(masks, flows[f], key)
      && (forall id | id in flows && Matches(masks, flows[id], key) ::
            Position(list, flows[f].mask) <= Position(list, flows[id].mask))
  }

  lemma MatchesSame(masks: Masks, f: Flow, g: Flow, key: Key)
    requires f.mask == g.mask && Matches(masks, f, key) && Matches(masks, g, key)
    ensures Matches(masks, f, g.unmasked)
  {
  }

  /** The definition leaves no choice. */
  lemma AnswerUnique(flows: Flows, masks: Masks, list: seq<MaskId>, key: Key, a: Option<FlowId>, b: Option<FlowId>)
    requires NoTwins(flows, masks) && (forall m :: m in list <==> m in masks)
    requires IsAnswer(flows, masks, list, key, a) && IsAnswer(flows, masks, list, key, b)
    ensures a == b
  {
    if a.Some? && b.Some? {
      var (f, g) := (flows[a.value], flows[b.value]);
      PositionHas(list, f.mask);
      PositionHas(list, g.mask);
      assert f.mask == g.mask;
      MatchesSame(masks, f, g, key);
    }
  }

  ghost predicate NothingEarlier(flows: Flows, masks: Masks, list: seq<MaskId>, key: Key, m: MaskId) {
    forall id | id in flows && Matches(masks, flows[id], key) :: Position(list, m) <= Position(list, flows[id].mask)
  }

  /** A flow is found by the very key that it was installed with exactly when no flow
      whose mask is tried earlier agrees with that key. */
  lemma OwnKeyFindsExactly(flows: Flows, masks: Masks, list: seq<MaskId>, id: FlowId, found: Option<FlowId>)
    requires NoTwins(flows, masks) && (forall m :: m in list <==> m in masks)
    requires id in flows && flows[id].mask in masks && IsAnswer(flows, masks, list, flows[id].unmasked, found)
    ensures found == Some(id) <==> NothingEarlier(flows, masks, list, flows[id].unmasked, flows[id].mask)
  {
    var key := flows[id].unmasked;
    if NothingEarlier(flows, masks, list, key, flows[id].mask) {
      assert Matches(masks, flows[id], key);
      assert IsAnswer(flows, masks, list, key, Some(id));
      AnswerUnique(flows, masks, list, key, found, Some(id));
    }
  }

  /** The walk along a bucket in ovs_masked_flow_lookup(). */
  method SearchChain(flows: Flows, chain: seq<FlowId>, m: MaskId, masked: Key, range: Range)
    returns (r: Option<FlowId>)
    requires RangeOk(range) && forall id | id in chain :: id in flows
    ensures r.Some? ==> r.value in chain && flows[r.value].mask == m && EqualIn(range, flows[r.value].key, masked)
    ensures r.None? ==> forall id | id in chain && flows[id].mask == m :: !EqualIn(range, flows[id].key, masked)
  {
    var i := 0;
    while i < |chain|
      invariant 0 <= i <= |chain|
      invariant forall id | id in chain[..i] && flows[id].mask == m :: !EqualIn(range, flows[id].key, masked)
    {
      var flow := flows[chain[i]];
      if flow.mask == m {
        var same := CmpKey(flow.key, masked, range);
        if same {
          return Some(chain[i]);
        }
      }
      assert chain[..i + 1] == chain[..i] + [chain[i]];
      i := i + 1;
    }
    r := None;
    assert chain[..i] == chain;
  }

  lemma MatchesExactly(h: Hashing, masks: Masks, f: Flow, masked: Key, key: Key)
    requires FlowOk(h, masks, f) && MaskOk(masks[f.mask].mask) && MaskedFrom(masks[f.mask].mask, masked, key)
    ensures Matches(masks, f, key) <==> EqualIn(masks[f.mask].mask.range, f.key, masked)
  {
    RangeSuffices(masks[f.mask].mask, f.key, f.unmasked, masked, key);
  }

  /** ovs_masked_flow_lookup(). */
  method LookupMasked(h: Hashing, flows: Flows, masks: Masks, t: Table, key: Key, m: MaskId)
    returns (r: Option<FlowId>)
    requires Holds(h, flows, t, flows.Keys) && FlowsOk(h, flows, masks)
    requires m in masks && MaskOk(masks[m].mask)
    ensures r.Some? ==> r.value in flows && flows[r.value].mask == m && Matches(masks, flows[r.value], key)
    ensures r.None? ==> forall id | id in flows && flows[id].mask == m :: !Matches(masks, flows[id], key)
  {
    var stack: Key := *;
    var masked := KeyMask(stack, key, masks[m].mask);
    var slot := Slot(h, h.hash(Slice(masks[m].mask.range, masked)), t.seed, |t.buckets|);
    assert BucketOk(h, flows, t, flows.Keys, slot);
    r := SearchChain(flows, t.buckets[slot], m, masked, masks[m].mask.range);
    if r.Some? {
      MatchesExactly(h, masks, flows[r.value], masked, key);
    } else {
      forall id | id in flows && flows[id].mask == m ensures !Matches(masks, flows[id], key) {
        MatchesExactly(h, masks, flows[id], masked, key);
        if Matches(masks, flows[id], key) {
          MatchingInSlot(h, flows, masks, t, key, m, masked, id);
        }
      }
    }
  }

  /** A flow that matches hashes to the bucket that the lookup searches. */
  lemma MatchingInSlot(h: Hashing, flows: Flows, masks: Masks, t: Table, key: Key, m: MaskId, masked: Key, id: FlowId)
    requires Holds(h, flows, t, flows.Keys) && FlowsOk(h, flows, masks)
    requires m in masks && MaskOk(masks[m].mask) && MaskedFrom(masks[m].mask, masked, key)
    requires id in flows && flows[id].mask == m && Matches(masks, flows[id], key)
    ensures id in t.buckets[Slot(h, h.hash(Slice(masks[m].mask.range, masked)), t.seed, |t.buckets|)]
  {
    var (mask, flow) := (masks[m].mask, flows[id]);
    assert FlowOk(h, masks, flow);
    RangeSuffices(mask, flow.key, flow.unmasked, masked, key);
    SliceEqual(mask.range, flow.key, masked);
    assert InItsBucket(h, flows, t, id);
  }

  /** No flow with one of the first 'k' masks matches. */
  ghost predicate NoneBefore(flows: Flows, masks: Masks, list: seq<MaskId>, key: Key, k: nat) {
    forall id | id in flows && Matches(masks, flows[id], key) :: Position(list, flows[id].mask) >= k
  }

  lemma NextMask(flows: Flows, masks: Masks, list: seq<MaskId>, key: Key, k: nat)
    requires k < |list| && (forall m | m in masks :: m in list)
    requires NoneBefore(flows, masks, list, key, k)
    requires forall id | id in flows && flows[id].mask == list[k] :: !Matches(masks, flows[id], key)
    ensures NoneBefore(flows, masks, list, key, k + 1)
  {
    forall id | id in flows && Matches(masks, flows[id], key) ensures Position(list, flows[id].mask) >= k + 1 {
      PositionHas(list, flows[id].mask);
    }
  }

  lemma NoMaskLeft(flows: Flows, masks: Masks, list: seq<MaskId>, key: Key)
    requires forall m | m in masks :: m in list
    requires NoneBefore(flows, masks, list, key, |list|)
    ensures IsAnswer(flows, masks, list, key, None)
  {
    forall id | id in flows ensures !Matches(masks, flows[id], key) {
      if Matches(masks, flows[id], key) {
        PositionHas(list, flows[id].mask);
      }
    }
  }

  /** ovs_flow_lookup(). */
  method Lookup(h: Hashing, flows: Flows, masks: Masks, list: seq<MaskId>, t: Table, key: Key)
    returns (r: Option<FlowId>)
    requires Holds(h, flows, t, flows.Keys) && FlowsOk(h, flows, masks) && MasksOk(masks, list)
    ensures IsAnswer(flows, masks, list, key, r)
  {
    var k := 0;
    while k < |list|
      invariant 0 <= k <= |list|
      invariant NoneBefore(flows, masks, list, key, k)
    {
      assert list[k] in masks;
      r := LookupMasked(h, flows, masks, t, key, list[k]);
      if r.Some? {
        PositionOf(list, k);
        return;
      }
      NextMask(flows, masks, list, key, k);
      k := k + 1;
    }
    NoMaskLeft(flows, masks, list, key);
    r := None;
  }

  // ------------------------------------------------------- finding a mask

  lemma MaskEqualExactly(a: Mask, b: Mask)
    requires MaskOk(a) && MaskOk(b)
    ensures a == b <==> a.range == b.range && EqualIn(a.range, a.key, b.key)
  {
    if a.range == b.range && EqualIn(a.range, a.key, b.key) {
      forall w | 0 <= w < KEY_WORDS ensures a.key[w] == b.key[w] {
        if !InRange(a.range, w) {
          assert a.key[w] == 0 && b.key[w] == 0;
        }
      }
      assert a.key == b.key;
    }
  }

  /** ovs_sw_flow_mask_find(), with ovs_sw_flow_mask_equal(). */
  method FindMask(masks: Masks, list: seq<MaskId>, mask: Mask) returns (r: Option<MaskId>)
    requires MasksOk(masks, list) && MaskOk(mask)
    ensures r.Some? ==> r.value in masks && masks[r.value].mask == mask
    ensures r.None? ==> forall m | m in masks :: masks[m].mask != mask
  {
    var k := 0;
    while k < |list|
      invariant 0 <= k <= |list|
      invariant forall m | m in list[..k] :: m in masks && masks[m].mask != mask
    {
      assert list[k] in list;
      var other := masks[list[k]].mask;
      MaskEqualExactly(mask, other);
      if mask.range == other.range {
        var same := CmpKey(mask.key, other.key, mask.range);
        if same {
          return Some(list[k]);
        }
      }
      assert list[..k + 1] == list[..k] + [list[k]];
      k := k + 1;
    }
    assert list[..k] == list;
    r := None;
  }
}
