/**
  What installing, changing and freeing a flow does to the table, the masks and
  their reference counts.
 */
module FlowUpdate {
  import opened Collections
  import opened FlowKey
  import opened FlowTable
  import opened FlowMasks

  /** Everything that holds of a datapath between two operations. */
  ghost predicate Good(h: Hashing, flows: Flows, masks: Masks, list: seq<MaskId>, t: Table) {
    && Holds(h, flows, t, flows.Keys)
    && Shared(h, flows, masks, list)
  }

  /** The part of it that does not involve the buckets. */
  ghost predicate Shared(h: Hashing, flows: Flows, masks: Masks, list: seq<MaskId>) {
    && FlowsOk(h, flows, masks)
    && MasksOk(masks, list)
    && RefsOk(flows, masks)
    && NoTwins(flows, masks)
  }

  // ---------------------------------------------------------- reference counts

  /** ovs_sw_flow_mask_add_ref(), after ovs_sw_flow_mask_alloc() for a new mask. */
  function AddRef(masks: Masks, m: MaskId, mask: Mask): Masks {
    masks[m := MaskRef(mask, if m in masks then masks[m].refs + 1 else 1)]
  }

  /** ovs_sw_flow_mask_insert() puts a new mask at the head of the list. */
  function AddToList(masks: Masks, list: seq<MaskId>, m: MaskId): seq<MaskId> {
    if m in masks then list else [m] + list
  }

  /** ovs_sw_flow_mask_del_ref(). */
  function DropRef(masks: Masks, m: MaskId): Masks
    requires m in masks && masks[m].refs > 0
  {
    if masks[m].refs == 1 then masks - {m} else masks[m := MaskRef(masks[m].mask, masks[m].refs - 1)]
  }

  function DropFromList(masks: Masks, list: seq<MaskId>, m: MaskId): seq<MaskId>
    requires m in masks
  {
    if masks[m].refs == 1 then Without(list, m) else list
  }

  /** The masks that are left have not changed. */
  ghost predicate SameValues(masks: Masks, masks': Masks) {
    forall m | m in masks' :: m in masks && masks'[m].mask == masks[m].mask
  }

  lemma DropRefKeeps(masks: Masks, m: MaskId)
    requires m in masks && masks[m].refs > 0
    ensures SameValues(masks, DropRef(masks, m))
  {
  }

  lemma UsersAdd(flows: Flows, id: FlowId, f: Flow, m: MaskId)
    requires id !in flows
    ensures Users(flows[id := f], m) == if m == f.mask then Users(flows, m) + {id} else Users(flows, m)
  {
  }

  lemma UsersDrop(flows: Flows, id: FlowId, m: MaskId)
    requires id in flows
    ensures Users(flows - {id}, m) == if m == flows[id].mask then Users(flows, m) - {id} else Users(flows, m)
  {
  }

  lemma RefsAdd(h: Hashing, flows: Flows, masks: Masks, id: FlowId, f: Flow, mask: Mask)
    requires FlowsOk(h, flows, masks) && RefsOk(flows, masks) && id !in flows
    ensures RefsOk(flows[id := f], AddRef(masks, f.mask, mask))
  {
    var masks' := AddRef(masks, f.mask, mask);
    forall m | m in masks' ensures masks'[m].refs == |Users(flows[id := f], m)| && masks'[m].refs > 0 {
      UsersAdd(flows, id, f, m);
      if m !in masks {
        forall x | x in flows ensures flows[x].mask != m {
          assert FlowOk(h, masks, flows[x]);
        }
        assert Users(flows, m) == {};
      }
    }
  }

  lemma RefsDrop(flows: Flows, masks: Masks, id: FlowId)
    requires RefsOk(flows, masks) && id in flows && flows[id].mask in masks
    ensures RefsOk(flows - {id}, DropRef(masks, flows[id].mask))
  {
    var masks' := DropRef(masks, flows[id].mask);
    forall m | m in masks' ensures masks'[m].refs == |Users(flows - {id}, m)| && masks'[m].refs > 0 {
      UsersDrop(flows, id, m);
      if m == flows[id].mask {
        assert id in Users(flows, m);
      }
    }
  }

  // ------------------------------------------------------------ the mask list

  lemma MasksAdd(masks: Masks, list: seq<MaskId>, m: MaskId, mask: Mask)
    requires MasksOk(masks, list) && MaskOk(mask)
    requires if m in masks then masks[m].mask == mask else forall n | n in masks :: masks[n].mask != mask
    ensures MasksOk(AddRef(masks, m, mask), AddToList(masks, list, m))
  {
    if m !in masks {
      DistinctCons(m, list);
    }
  }

  lemma MasksDrop(masks: Masks, list: seq<MaskId>, m: MaskId)
    requires MasksOk(masks, list) && m in masks && masks[m].refs > 0
    ensures MasksOk(DropRef(masks, m), DropFromList(masks, list, m))
  {
    if masks[m].refs == 1 {
      WithoutContents(list, m);
    }
  }

  // ------------------------------------------------------------- the flows

  lemma FlowsAdd(h: Hashing, flows: Flows, masks: Masks, id: FlowId, f: Flow, mask: Mask)
    requires FlowsOk(h, flows, masks) && RangeOk(mask.range)
    requires f.mask in masks ==> masks[f.mask].mask == mask
    requires MaskedFrom(mask, f.key, f.unmasked) && f.hash == h.hash(Slice(mask.range, f.key))
    ensures FlowsOk(h, flows[id := f], AddRef(masks, f.mask, mask))
  {
    var (flows', masks') := (flows[id := f], AddRef(masks, f.mask, mask));
    forall x | x in flows' ensures FlowOk(h, masks', flows'[x]) {
      if x != id {
        assert FlowOk(h, masks, flows[x]);
      }
    }
  }

  lemma FlowsDrop(h: Hashing, flows: Flows, masks: Masks, masks': Masks, id: FlowId)
    requires FlowsOk(h, flows, masks)
    requires forall x | x in flows && x != id :: flows[x].mask in masks'
    requires SameValues(masks, masks')
    ensures FlowsOk(h, flows - {id}, masks')
  {
    forall x | x in flows - {id} ensures FlowOk(h, masks', flows[x]) {
      assert FlowOk(h, masks, flows[x]);
    }
  }

  lemma MatchesFrame(masks: Masks, masks': Masks, f: Flow, key: Key)
    requires f.mask in masks && f.mask in masks' && masks'[f.mask].mask == masks[f.mask].mask
    ensures Matches(masks', f, key) == Matches(masks, f, key)
  {
  }

  lemma MatchesSymmetric(masks: Masks, f: Flow, g: Flow)
    requires f.mask == g.mask
    ensures Matches(masks, f, g.unmasked) == Matches(masks, g, f.unmasked)
  {
    if f.mask in masks {
      UnderSymmetric(masks[f.mask].mask, f.unmasked, g.unmasked);
    }
  }

  lemma UnderSymmetric(m: Mask, a: Key, b: Key)
    ensures EqualUnder(m, a, b) == EqualUnder(m, b, a)
  {
  }

  lemma NoTwinsAdd(h: Hashing, flows: Flows, masks: Masks, id: FlowId, f: Flow, mask: Mask)
    requires FlowsOk(h, flows, masks) && NoTwins(flows, masks) && id !in flows
    requires f.mask in masks ==> masks[f.mask].mask == mask
    requires forall x | x in flows :: !Matches(masks, flows[x], f.unmasked)
    ensures NoTwins(flows[id := f], AddRef(masks, f.mask, mask))
  {
    var (flows', masks') := (flows[id := f], AddRef(masks, f.mask, mask));
    forall i, j | i in flows' && j in flows' && flows'[i].mask == flows'[j].mask
                  && Matches(masks', flows'[i], flows'[j].unmasked) ensures i == j
    {
      if i in flows && i != id {
        assert FlowOk(h, masks, flows[i]);
        MatchesFrame(masks, masks', flows[i], flows'[j].unmasked);
      } else if j in flows && j != id {
        assert FlowOk(h, masks, flows[j]);
        MatchesSymmetric(masks', flows'[i], flows[j]);
        MatchesFrame(masks, masks', flows[j], f.unmasked);
      }
    }
  }

  lemma NoTwinsDrop(h: Hashing, flows: Flows, masks: Masks, masks': Masks, id: FlowId)
    requires FlowsOk(h, flows, masks) && NoTwins(flows, masks)
    requires forall x | x in flows && x != id :: flows[x].mask in masks'
    requires SameValues(masks, masks')
    ensures NoTwins(flows - {id}, masks')
  {
    var flows' := flows - {id};
    forall i, j | i in flows' && j in flows' && flows'[i].mask == flows'[j].mask
                  && Matches(masks', flows'[i], flows'[j].unmasked) ensures i == j
    {
      MatchesFrame(masks, masks', flows[i], flows[j].unmasked);
    }
  }

  // -------------------------------------------------------- whole operations

  /** Installing a flow whose key nothing matches yet keeps everything. */
  lemma SharedAdd(h: Hashing, flows: Flows, masks: Masks, list: seq<MaskId>, id: FlowId, f: Flow, mask: Mask)
    requires Shared(h, flows, masks, list) && id !in flows && MaskOk(mask)
    requires if f.mask in masks then masks[f.mask].mask == mask else forall n | n in masks :: masks[n].mask != mask
    requires MaskedFrom(mask, f.key, f.unmasked) && f.hash == h.hash(Slice(mask.range, f.key))
    requires forall x | x in flows :: !Matches(masks, flows[x], f.unmasked)
    ensures Shared(h, flows[id := f], AddRef(masks, f.mask, mask), AddToList(masks, list, f.mask))
  {
    RefsAdd(h, flows, masks, id, f, mask);
    MasksAdd(masks, list, f.mask, mask);
    NoTwinsAdd(h, flows, masks, id, f, mask);
    FlowsAdd(h, flows, masks, id, f, mask);
  }

  /** Freeing a flow never meets a mask without references, and keeps everything
      that does not involve the buckets. */
  lemma SharedDrop(h: Hashing, flows: Flows, masks: Masks, list: seq<MaskId>, id: FlowId)
    requires Shared(h, flows, masks, list) && id in flows
    ensures flows[id].mask in masks && masks[flows[id].mask].refs > 0
    ensures Shared(h, flows - {id}, DropRef(masks, flows[id].mask), DropFromList(masks, list, flows[id].mask))
  {
    var m := flows[id].mask;
    assert FlowOk(h, masks, flows[id]);
    RefsDrop(flows, masks, id);
    MasksDrop(masks, list, m);
    AllStillUsed(h, flows, masks, id);
    DropRefKeeps(masks, m);
    NoTwinsDrop(h, flows, masks, DropRef(masks, m), id);
    FlowsDrop(h, flows, masks, DropRef(masks, m), id);
  }

  /** A mask goes away only with its last flow. */
  lemma StillUsed(h: Hashing, flows: Flows, masks: Masks, id: FlowId, x: FlowId)
    requires FlowsOk(h, flows, masks) && RefsOk(flows, masks) && id in flows && x in flows && x != id
    ensures flows[id].mask in masks && masks[flows[id].mask].refs > 0
    ensures flows[x].mask in DropRef(masks, flows[id].mask)
  {
    assert FlowOk(h, masks, flows[id]) && FlowOk(h, masks, flows[x]);
    var m := flows[id].mask;
    if flows[x].mask == m {
      assert Users(flows, m) == (Users(flows, m) - {id, x}) + {id, x};
      assert |{id, x}| == 2;
    }
  }

  lemma AllStillUsed(h: Hashing, flows: Flows, masks: Masks, id: FlowId)
    requires FlowsOk(h, flows, masks) && RefsOk(flows, masks) && id in flows
    ensures flows[id].mask in masks && masks[flows[id].mask].refs > 0
    ensures forall x | x in flows && x != id :: flows[x].mask in DropRef(masks, flows[id].mask)
  {
    assert FlowOk(h, masks, flows[id]);
    forall x | x in flows && x != id ensures flows[x].mask in DropRef(masks, flows[id].mask) {
      StillUsed(h, flows, masks, id, x);
    }
  }

  function NewActs(flows: Flows, id: FlowId, acts: int): Flows
    requires id in flows
  {
    flows[id := flows[id].(acts := acts)]
  }

  lemma FlowsActs(h: Hashing, flows: Flows, masks: Masks, id: FlowId, acts: int)
    requires FlowsOk(h, flows, masks) && id in flows
    ensures FlowsOk(h, NewActs(flows, id, acts), masks)
  {
    var flows' := NewActs(flows, id, acts);
    forall x | x in flows' ensures FlowOk(h, masks, flows'[x]) {
      assert FlowOk(h, masks, flows[x]);
    }
  }

  lemma RefsActs(flows: Flows, masks: Masks, id: FlowId, acts: int)
    requires RefsOk(flows, masks) && id in flows
    ensures RefsOk(NewActs(flows, id, acts), masks)
  {
    forall m | m in masks ensures Users(NewActs(flows, id, acts), m) == Users(flows, m) {
    }
  }

  lemma NoTwinsActs(flows: Flows, masks: Masks, id: FlowId, acts: int)
    requires NoTwins(flows, masks) && id in flows
    ensures NoTwins(NewActs(flows, id, acts), masks)
  {
    var flows' := NewActs(flows, id, acts);
    forall i, j | i in flows' && j in flows' && flows'[i].mask == flows'[j].mask
                  && Matches(masks, flows'[i], flows'[j].unmasked) ensures i == j
    {
      assert Matches(masks, flows[i], flows[j].unmasked);
    }
  }

  /** Replacing a flow's actions keeps everything. */
  lemma SharedActs(h: Hashing, flows: Flows, masks: Masks, list: seq<MaskId>, id: FlowId, acts: int)
    requires Shared(h, flows, masks, list) && id in flows
    ensures Shared(h, NewActs(flows, id, acts), masks, list)
  {
    FlowsActs(h, flows, masks, id, acts);
    RefsActs(flows, masks, id, acts);
    NoTwinsActs(flows, masks, id, acts);
  }

  // ------------------------------------------------------ the whole datapath

  /** The flow table of one datapath, with its flows and masks. */
  datatype State = State(flows: Flows, masks: Masks, list: seq<MaskId>, table: Table)

  ghost predicate GoodState(h: Hashing, s: State) {
    Good(h, s.flows, s.masks, s.list, s.table)
  }

  ghost predicate SharedState(h: Hashing, s: State) {
    Shared(h, s.flows, s.masks, s.list)
  }

  /** 'r' is what a packet with 'key' finds. */
  ghost predicate Finds(s: State, key: Key, r: Option<FlowId>) {
    IsAnswer(s.flows, s.masks, s.list, key, r)
  }

  function EmptyState(seed: nat): State {
    State(map[], map[], [], EmptyTable(TBL_MIN_BUCKETS, seed))
  }

  lemma EmptyGood(h: Hashing, seed: nat)
    ensures GoodState(h, EmptyState(seed))
  {
    EmptyHolds(h, map[], TBL_MIN_BUCKETS, seed);
  }

  /** ovs_sw_flow_mask_insert() if need be, ovs_sw_flow_mask_add_ref() and
      ovs_flow_insert(). */
  function WithFlow(h: Hashing, s: State, id: FlowId, f: Flow, mask: Mask): State
    requires |s.table.buckets| > 0
  {
    State(s.flows[id := f], AddRef(s.masks, f.mask, mask), AddToList(s.masks, s.list, f.mask),
          TableInsert(h, s.table, id, f.hash))
  }

  /** ovs_flow_free(). */
  function WithoutFlow(s: State, id: FlowId): State
    requires id in s.flows && s.flows[id].mask in s.masks && s.masks[s.flows[id].mask].refs > 0
  {
    var m := s.flows[id].mask;
    State(s.flows - {id}, DropRef(s.masks, m), DropFromList(s.masks, s.list, m), s.table)
  }

  /** The mask to use for a new flow: the one on the list that is equal, or a new one. */
  ghost predicate MaskFor(s: State, m: MaskId, mask: Mask) {
    if m in s.masks then s.masks[m].mask == mask else forall n | n in s.masks :: s.masks[n].mask != mask
  }

  lemma InsertKeys(h: Hashing, flows: Flows, t: Table, id: FlowId, f: Flow)
    requires Holds(h, flows, t, flows.Keys) && id !in flows
    ensures Holds(h, flows[id := f], TableInsert(h, t, id, f.hash), flows[id := f].Keys)
  {
    HoldsFrame(h, flows, flows[id := f], t, flows.Keys);
    InsertHolds(h, flows[id := f], t, flows.Keys, id);
    assert flows[id := f].Keys == flows.Keys + {id};
  }

  lemma RemoveKeys(h: Hashing, flows: Flows, t: Table, id: FlowId)
    requires Holds(h, flows, t, flows.Keys) && id in flows
    ensures t.count > 0
    ensures Holds(h, flows - {id}, TableRemove(h, t, id, flows[id].hash), (flows - {id}).Keys)
  {
    RemoveHolds(h, flows, t, flows.Keys, id);
    assert (flows - {id}).Keys == flows.Keys - {id};
    HoldsFrame(h, flows, flows - {id}, TableRemove(h, t, id, flows[id].hash), flows.Keys - {id});
  }

  lemma ActsKeys(h: Hashing, flows: Flows, t: Table, id: FlowId, acts: int)
    requires Holds(h, flows, t, flows.Keys) && id in flows
    ensures Holds(h, NewActs(flows, id, acts), t, NewActs(flows, id, acts).Keys)
  {
    HoldsFrame(h, flows, NewActs(flows, id, acts), t, flows.Keys);
    assert NewActs(flows, id, acts).Keys == flows.Keys;
  }

  lemma WithFlowGood(h: Hashing, s: State, id: FlowId, f: Flow, mask: Mask)
    requires GoodState(h, s) && id !in s.flows && MaskOk(mask) && MaskFor(s, f.mask, mask)
    requires MaskedFrom(mask, f.key, f.unmasked) && f.hash == h.hash(Slice(mask.range, f.key))
    requires Finds(s, f.unmasked, None)
    ensures GoodState(h, WithFlow(h, s, id, f, mask))
  {
    SharedAdd(h, s.flows, s.masks, s.list, id, f, mask);
    InsertKeys(h, s.flows, s.table, id, f);
  }

  lemma WithoutFlowShared(h: Hashing, s: State, id: FlowId)
    requires SharedState(h, s) && id in s.flows
    ensures s.flows[id].mask in s.masks && s.masks[s.flows[id].mask].refs > 0
    ensures SharedState(h, WithoutFlow(s, id))
  {
    SharedDrop(h, s.flows, s.masks, s.list, id);
  }

  lemma WithoutFlowGood(h: Hashing, s: State, id: FlowId)
    requires GoodState(h, s) && id in s.flows
    ensures s.table.count > 0 && s.flows[id].mask in s.masks && s.masks[s.flows[id].mask].refs > 0
    ensures GoodState(h, WithoutFlow(s, id).(table := TableRemove(h, s.table, id, s.flows[id].hash)))
  {
    WithoutFlowShared(h, s, id);
    RemoveKeys(h, s.flows, s.table, id);
  }

  lemma WithActsGood(h: Hashing, s: State, id: FlowId, acts: int)
    requires GoodState(h, s) && id in s.flows
    ensures GoodState(h, s.(flows := NewActs(s.flows, id, acts)))
  {
    SharedActs(h, s.flows, s.masks, s.list, id, acts);
    ActsKeys(h, s.flows, s.table, id, acts);
  }

  lemma RehashGood(h: Hashing, s: State, n: nat, seed: nat)
    requires GoodState(h, s) && n > 0
    ensures forall id | id in All(s.table.buckets) :: id in s.flows
    ensures GoodState(h, s.(table := Rehash(h, s.flows, s.table, n, seed)))
  {
    RehashHolds(h, s.flows, s.table, s.flows.Keys, n, seed);
  }

  /** Once every flow is freed, the mask list is empty. */
  lemma NoFlowsNoMasks(h: Hashing, s: State)
    requires SharedState(h, s) && s.flows.Keys == {}
    ensures s.flows == map[] && s.masks == map[] && s.list == []
  {
    NoUsers(s.flows, s.masks);
    if s.list != [] {
      HasElement(s.list);
    }
  }

  lemma HasElement(list: seq<MaskId>)
    requires list != []
    ensures exists m :: m in list
  {
    assert list[0] in list;
  }

  lemma NoUsers(flows: Flows, masks: Masks)
    requires RefsOk(flows, masks) && flows.Keys == {}
    ensures masks == map[]
  {
    assert forall m :: Users(flows, m) == {};
    assert masks.Keys == {};
  }
}
