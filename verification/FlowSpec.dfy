/**
  The flow table as its users see it: a plain map of wildcarded entries and the order
  in which their masks are tried.  There are no hashes, buckets, masked keys or
  reference counts here.
 */
module FlowSpec {
  import opened Collections
  import opened FlowKey
  import opened FlowTable
  import opened FlowMasks
  import opened FlowUpdate

  datatype Entry = Entry(mask: Mask, key: Key, acts: int)

  datatype Spec = Spec(entries: map<FlowId, Entry>, order: seq<Mask>)

  predicate UsesOther(entries: map<FlowId, Entry>, id: FlowId, mask: Mask) {
    exists x | x in entries :: x != id && entries[x].mask == mask
  }

  function SpecAdd(p: Spec, id: FlowId, e: Entry): Spec {
    Spec(p.entries[id := e], if e.mask in p.order then p.order else [e.mask] + p.order)
  }

  ghost function SpecDrop(p: Spec, id: FlowId): Spec
    requires id in p.entries
  {
    var mask := p.entries[id].mask;
    Spec(p.entries - {id}, if UsesOther(p.entries, id, mask) then p.order else Without(p.order, mask))
  }

  function SpecActs(p: Spec, id: FlowId, acts: int): Spec
    requires id in p.entries
  {
    p.(entries := p.entries[id := p.entries[id].(acts := acts)])
  }

  function Rank(order: seq<Mask>, mask: Mask): nat {
    if order == [] || order[0] == mask then 0 else 1 + Rank(order[1..], mask)
  }

  /** A packet finds an entry that agrees with it under the entry's whole mask, one
      whose mask comes first in the order, and nothing only if no entry agrees. */
  ghost predicate SpecFinds(p: Spec, key: Key, r: Option<FlowId>) {
    match r
    case None => forall id | id in p.entries :: !EqualUnder(p.entries[id].mask, p.entries[id].key, key)
    case Some(f) =>
      && f in p.entries && EqualUnder(p.entries[f].mask, p.entries[f].key, key)
      && (forall id | id in p.entries && EqualUnder(p.entries[id].mask, p.entries[id].key, key) ::
            Rank(p.order, p.entries[f].mask) <= Rank(p.order, p.entries[id].mask))
  }

  // ------------------------------------------------------------ abstraction

  ghost predicate HaveMasks(flows: Flows, masks: Masks) {
    forall id | id in flows :: flows[id].mask in masks
  }

  /** All that is needed to read off the entries and the order. */
  ghost predicate Linked(s: State) {
    && HaveMasks(s.flows, s.masks)
    && (forall m | m in s.list :: m in s.masks)
  }

  lemma GoodIsLinked(h: Hashing, s: State)
    requires SharedState(h, s)
    ensures Linked(s)
  {
    forall id | id in s.flows ensures s.flows[id].mask in s.masks {
      assert FlowOk(h, s.masks, s.flows[id]);
    }
  }

  ghost function EntryOf(masks: Masks, f: Flow): Entry
    requires f.mask in masks
  {
    Entry(masks[f.mask].mask, f.unmasked, f.acts)
  }

  ghost function Entries(flows: Flows, masks: Masks): map<FlowId, Entry>
    requires HaveMasks(flows, masks)
  {
    map id | id in flows :: EntryOf(masks, flows[id])
  }

  ghost function Order(masks: Masks, list: seq<MaskId>): seq<Mask>
    requires forall m | m in list :: m in masks
  {
    if list == [] then [] else [masks[list[0]].mask] + Order(masks, list[1..])
  }

  ghost function Abs(s: State): Spec
    requires Linked(s)
  {
    Spec(Entries(s.flows, s.masks), Order(s.masks, s.list))
  }

  /** Different identifiers on the list stand for different masks. */
  ghost predicate Apart(masks: Masks) {
    forall m, n | m in masks && n in masks && m != n :: masks[m].mask != masks[n].mask
  }

  lemma {:induction false} RankIsPosition(masks: Masks, list: seq<MaskId>, m: MaskId)
    requires (forall n | n in list :: n in masks) && m in masks && Apart(masks)
    ensures Rank(Order(masks, list), masks[m].mask) == Position(list, m)
  {
    if list != [] {
      RankIsPosition(masks, list[1..], m);
      assert list[0] in masks;
    }
  }

  lemma {:induction false} OrderHas(masks: Masks, list: seq<MaskId>, m: MaskId)
    requires (forall n | n in list :: n in masks) && m in masks && Apart(masks)
    ensures masks[m].mask in Order(masks, list) <==> m in list
  {
    if list != [] {
      OrderHas(masks, list[1..], m);
      assert list == [list[0]] + list[1..] && list[0] in masks;
    }
  }

  lemma {:induction false} OrderLacks(masks: Masks, list: seq<MaskId>, mask: Mask)
    requires forall n | n in list :: n in masks && masks[n].mask != mask
    ensures mask !in Order(masks, list)
  {
    if list != [] {
      OrderLacks(masks, list[1..], mask);
      assert list[0] in masks && masks[list[0]].mask != mask;
    }
  }

  lemma {:induction false} OrderFrame(masks: Masks, masks': Masks, list: seq<MaskId>)
    requires forall n | n in list :: n in masks && n in masks' && masks'[n].mask == masks[n].mask
    ensures Order(masks', list) == Order(masks, list)
  {
    if list != [] {
      OrderFrame(masks, masks', list[1..]);
      assert list[0] in masks;
    }
  }

  lemma {:induction false} OrderWithout(masks: Masks, list: seq<MaskId>, m: MaskId)
    requires (forall n | n in list :: n in masks) && m in masks && Apart(masks)
    requires forall n | n in Without(list, m) :: n in masks
    ensures Order(masks, Without(list, m)) == Without(Order(masks, list), masks[m].mask)
  {
    if list != [] {
      assert list[0] in masks;
      if list[0] != m {
        var w := Without(list[1..], m);
        assert Without(list, m) == [list[0]] + w && ([list[0]] + w)[1..] == w;
        OrderWithout(masks, list[1..], m);
      }
    }
  }

  lemma AnswerIsSpec(flows: Flows, masks: Masks, list: seq<MaskId>, key: Key, r: Option<FlowId>)
    requires HaveMasks(flows, masks) && (forall m | m in list :: m in masks) && Apart(masks)
    ensures IsAnswer(flows, masks, list, key, r) <==> SpecFinds(Spec(Entries(flows, masks), Order(masks, list)), key, r)
  {
    var (entries, order) := (Entries(flows, masks), Order(masks, list));
    forall id | id in flows ensures Rank(order, entries[id].mask) == Position(list, flows[id].mask) {
      RankIsPosition(masks, list, flows[id].mask);
    }
    assert forall id | id in flows :: Matches(masks, flows[id], key) <==> EqualUnder(entries[id].mask, entries[id].key, key);
  }

  /** What a packet finds by the table's own definition is what it finds in the plain
      map. */
  lemma FindsIsSpec(h: Hashing, s: State, key: Key, r: Option<FlowId>)
    requires SharedState(h, s)
    ensures Linked(s)
    ensures Finds(s, key, r) <==> SpecFinds(Abs(s), key, r)
  {
    GoodIsLinked(h, s);
    AnswerIsSpec(s.flows, s.masks, s.list, key, r);
  }

  // ------------------------------------------------------- the operations

  lemma AddEntries(flows: Flows, masks: Masks, id: FlowId, f: Flow, mask: Mask)
    requires HaveMasks(flows, masks) && id !in flows
    requires f.mask in masks ==> masks[f.mask].mask == mask
    ensures HaveMasks(flows[id := f], AddRef(masks, f.mask, mask))
    ensures Entries(flows[id := f], AddRef(masks, f.mask, mask)) ==
            Entries(flows, masks)[id := Entry(mask, f.unmasked, f.acts)]
  {
  }

  lemma AddOrder(masks: Masks, list: seq<MaskId>, m: MaskId, mask: Mask)
    requires MasksOk(masks, list)
    requires if m in masks then masks[m].mask == mask else forall n | n in masks :: masks[n].mask != mask
    ensures forall n | n in AddToList(masks, list, m) :: n in AddRef(masks, m, mask)
    ensures Order(AddRef(masks, m, mask), AddToList(masks, list, m)) ==
            if mask in Order(masks, list) then Order(masks, list) else [mask] + Order(masks, list)
  {
    OrderFrame(masks, AddRef(masks, m, mask), list);
    if m in masks {
      OrderHas(masks, list, m);
    } else {
      OrderLacks(masks, list, mask);
      assert ([m] + list)[1..] == list;
    }
  }

  lemma AddIsSpec(h: Hashing, s: State, id: FlowId, f: Flow, mask: Mask)
    requires GoodState(h, s) && id !in s.flows && MaskFor(s, f.mask, mask)
    ensures Linked(s) && Linked(WithFlow(h, s, id, f, mask))
    ensures Abs(WithFlow(h, s, id, f, mask)) == SpecAdd(Abs(s), id, Entry(mask, f.unmasked, f.acts))
  {
    GoodIsLinked(h, s);
    AddEntries(s.flows, s.masks, id, f, mask);
    AddOrder(s.masks, s.list, f.mask, mask);
  }

  lemma DropEntries(flows: Flows, masks: Masks, masks': Masks, id: FlowId)
    requires HaveMasks(flows, masks)
    requires forall x | x in flows && x != id :: flows[x].mask in masks'
    requires SameValues(masks, masks')
    ensures Entries(flows - {id}, masks') == Entries(flows, masks) - {id}
  {
  }

  /** The reference count says whether another entry uses the mask. */
  lemma LastRefExactly(h: Hashing, flows: Flows, masks: Masks, id: FlowId)
    requires FlowsOk(h, flows, masks) && RefsOk(flows, masks) && Apart(masks) && id in flows
    ensures HaveMasks(flows, masks)
    ensures masks[flows[id].mask].refs == 1 <==>
            !UsesOther(Entries(flows, masks), id, masks[flows[id].mask].mask)
  {
    forall x | x in flows ensures flows[x].mask in masks {
      assert FlowOk(h, masks, flows[x]);
    }
    var m := flows[id].mask;
    assert Users(flows, m) == (Users(flows, m) - {id}) + {id};
    OthersExactly(flows, masks, id);
  }

  lemma OthersExactly(flows: Flows, masks: Masks, id: FlowId)
    requires HaveMasks(flows, masks) && Apart(masks) && id in flows
    ensures Users(flows, flows[id].mask) - {id} == {} <==>
            !UsesOther(Entries(flows, masks), id, masks[flows[id].mask].mask)
  {
    var m := flows[id].mask;
    if x :| x in Users(flows, m) - {id} {
      assert Entries(flows, masks)[x].mask == masks[m].mask;
    }
    if x :| x in flows && x != id && Entries(flows, masks)[x].mask == masks[m].mask {
      assert x in Users(flows, m) - {id};
    }
  }

  lemma DropOrder(masks: Masks, list: seq<MaskId>, m: MaskId)
    requires MasksOk(masks, list) && m in masks && masks[m].refs > 0
    ensures forall n | n in DropFromList(masks, list, m) :: n in DropRef(masks, m)
    ensures Order(DropRef(masks, m), DropFromList(masks, list, m)) ==
            if masks[m].refs == 1 then Without(Order(masks, list), masks[m].mask) else Order(masks, list)
  {
    MasksDrop(masks, list, m);
    if masks[m].refs == 1 {
      OrderFrame(masks, DropRef(masks, m), Without(list, m));
      OrderWithout(masks, list, m);
    } else {
      OrderFrame(masks, DropRef(masks, m), list);
    }
  }

  lemma DropIsSpec(h: Hashing, s: State, id: FlowId)
    requires SharedState(h, s) && id in s.flows
    ensures Linked(s) && s.flows[id].mask in s.masks && s.masks[s.flows[id].mask].refs > 0
    ensures Linked(WithoutFlow(s, id)) && Abs(WithoutFlow(s, id)) == SpecDrop(Abs(s), id)
  {
    GoodIsLinked(h, s);
    WithoutFlowShared(h, s, id);
    GoodIsLinked(h, WithoutFlow(s, id));
    var m := s.flows[id].mask;
    LastRefExactly(h, s.flows, s.masks, id);
    AllStillUsed(h, s.flows, s.masks, id);
    DropRefKeeps(s.masks, m);
    DropEntries(s.flows, s.masks, DropRef(s.masks, m), id);
    DropOrder(s.masks, s.list, m);
  }

  lemma ActsEntries(flows: Flows, masks: Masks, id: FlowId, acts: int)
    requires HaveMasks(flows, masks) && id in flows
    ensures HaveMasks(NewActs(flows, id, acts), masks)
    ensures Entries(NewActs(flows, id, acts), masks) ==
            Entries(flows, masks)[id := Entries(flows, masks)[id].(acts := acts)]
  {
  }

  lemma ActsIsSpec(h: Hashing, s: State, id: FlowId, acts: int)
    requires SharedState(h, s) && id in s.flows
    ensures Linked(s) && Linked(s.(flows := NewActs(s.flows, id, acts)))
    ensures Abs(s.(flows := NewActs(s.flows, id, acts))) == SpecActs(Abs(s), id, acts)
  {
    GoodIsLinked(h, s);
    ActsEntries(s.flows, s.masks, id, acts);
  }
}
