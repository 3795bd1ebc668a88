/**
  The flow commands of the kernel datapath (datapath/datapath.c), as a state machine
  over one datapath's flow table.
 */
module Datapath {
  import opened Collections
  import opened FlowKey
  import opened FlowTable
  import opened FlowMasks
  import opened FlowUpdate
  import opened FlowSpec

  datatype Error = Success | ENOENT | EEXIST | EINVAL | ENOMEM

  datatype Cmd = New | Set

  /** struct sw_flow_match, as ovs_match_from_nlattrs() leaves it. */
  datatype Match = Match(key: Key, mask: Mask, end: nat)

  ghost predicate MatchOk(x: Match) {
    MaskOk(x.mask) && EndOk(x.end)
  }

  /** What the allocator hands out: whether it grants a table, a flow and a mask, and
      the storage, not in use so far, that it would give. */
  datatype Memory = Memory(table: bool, seed: nat, flow: bool, flowId: FlowId, mask: bool, maskId: MaskId)

  const PHY_OFFSET: nat := 24

  /** flow_key_start(): the tunnel part counts only when the key has a tunnel
      destination, which is the upper half of the key's second word. */
  function KeyStart(key: Key): nat {
    if key[1] >> 32 != 0 then 0 else PHY_OFFSET
  }

  /** ovs_flow_cmp_unmasked_key(): whether an update or a deletion with 'key' is meant
      for a flow that was installed with 'unmasked'. */
  ghost predicate SameUnmasked(unmasked: Key, key: Key, end: nat) {
    EqualIn(Range(KeyStart(key), end), unmasked, key)
  }

  method CmpUnmasked(unmasked: Key, key: Key, end: nat) returns (same: bool)
    requires end % LONG == 0 && end <= KEY_BYTES
    ensures same <==> SameUnmasked(unmasked, key, end)
  {
    same := CmpKey(unmasked, key, Range(KeyStart(key), end));
  }

  /** flow_table_copy_flows() into a new table, as __flow_tbl_rehash() does it. */
  method CopyFlows(h: Hashing, flows: Flows, t: Table, n: nat, seed: nat) returns (t': Table)
    requires n > 0 && forall id | id in All(t.buckets) :: id in flows
    ensures t' == Rehash(h, flows, t, n, seed)
  {
    t' := EmptyTable(n, seed);
    var i := 0;
    assert t.buckets[0..] == t.buckets;
    while i < |t.buckets|
      invariant 0 <= i <= |t.buckets|
      invariant forall id | id in All(t.buckets[i..]) :: id in flows
      invariant |t'.buckets| == n
      invariant InsertAll(h, flows, t', All(t.buckets[i..])) == Rehash(h, flows, t, n, seed)
    {
      var chain, rest := t.buckets[i], All(t.buckets[i + 1..]);
      assert All(t.buckets[i..]) == chain + rest by {
        assert t.buckets[i..][1..] == t.buckets[i + 1..];
      }
      var j := 0;
      assert chain[0..] == chain;
      while j < |chain|
        invariant 0 <= j <= |chain|
        invariant forall id | id in chain[j..] + rest :: id in flows
        invariant |t'.buckets| == n
        invariant InsertAll(h, flows, t', chain[j..] + rest) == Rehash(h, flows, t, n, seed)
      {
        assert (chain[j..] + rest)[0] == chain[j];
        assert (chain[j..] + rest)[1..] == chain[j + 1..] + rest;
        t' := TableInsert(h, t', chain[j], flows[chain[j]].hash);
        j := j + 1;
      }
      assert chain[j..] + rest == rest;
      i := i + 1;
    }
  }

  ghost predicate Fresh(s: State, mem: Memory) {
    mem.flowId !in s.flows && mem.maskId !in s.masks
  }

  // ------------------------------------------------ what the commands promise

  /** The result of creating a flow.  The error code left behind when no mask can be
      allocated is the one for a flow that does not exist. */
  function CreateResult(p: Spec, x: Match, flow: bool, mask: bool): Error {
    if !flow then ENOMEM else if !mask && x.mask !in p.order then ENOENT else Success
  }

  /** The result of OVS_FLOW_CMD_NEW and OVS_FLOW_CMD_SET. */
  ghost function PutResult(p: Spec, cmd: Cmd, create: bool, x: Match, found: Option<FlowId>, flow: bool, mask: bool): Error
  {
    match found
    case None => if cmd == Set then ENOENT else CreateResult(p, x, flow, mask)
    case Some(id) =>
      if cmd == New && create then EEXIST
      else if id !in p.entries || !SameUnmasked(p.entries[id].key, x.key, x.end) then EINVAL
      else Success
  }

  /** The entries after it, when it succeeds. */
  ghost function PutEffect(p: Spec, x: Match, acts: int, found: Option<FlowId>, id: FlowId): Spec
    requires found.Some? ==> found.value in p.entries
  {
    match found
    case None => SpecAdd(p, id, Entry(x.mask, x.key, acts))
    case Some(f) => SpecActs(p, f, acts)
  }

  /** Whether OVS_FLOW_CMD_DEL with 'key' is meant for the flow that the key finds. */
  ghost predicate Deletable(p: Spec, key: Key, end: nat, found: Option<FlowId>) {
    found.Some? && found.value in p.entries && SameUnmasked(p.entries[found.value].key, key, end)
  }

  /** The result of OVS_FLOW_CMD_DEL with a key. */
  ghost function DelResult(p: Spec, key: Key, end: nat, found: Option<FlowId>, reply: bool): Error {
    if !Deletable(p, key, end, found) then ENOENT else if !reply then ENOMEM else Success
  }

  predicate EndOk(end: nat) {
    end % LONG == 0 && end <= KEY_BYTES
  }

  class Datapath {
    const h: Hashing
    var dp: State

    ghost predicate Valid()
      reads this
      ensures Valid() ==> GoodState(h, dp) && Linked(dp)
    {
      GoodState(h, dp) && Linked(dp)
    }

    constructor (h: Hashing, seed: nat)
      ensures Valid() && Abs(dp) == Spec(map[], [])
    {
      this.h := h;
      dp := EmptyState(seed);
      EmptyGood(h, seed);
    }

    /** ovs_flow_lookup(), as every packet does it: the one answer that the plain
        entries allow. */
    method Receive(key: Key) returns (r: Option<FlowId>)
      requires Valid()
      ensures Finds(dp, key, r) && SpecFinds(Abs(dp), key, r)
      ensures forall other | SpecFinds(Abs(dp), key, other) :: other == r
    {
      r := Lookup(h, dp.flows, dp.masks, dp.list, dp.table, key);
      FindsIsSpec(h, dp, key, r);
      forall other | SpecFinds(Abs(dp), key, other) ensures other == r {
        FindsIsSpec(h, dp, key, other);
        AnswerUnique(dp.flows, dp.masks, dp.list, key, other, r);
      }
    }

    /** ovs_flow_tbl_expand() and ovs_flow_tbl_rehash(): no packet finds anything
        else afterwards. */
    method Resize(n: nat, seed: nat)
      requires Valid() && n > 0
      modifies this`dp
      ensures Valid() && Abs(dp) == Abs(old(dp)) && dp == old(dp).(table := dp.table)
      ensures dp.table.count == old(dp).table.count && |dp.table.buckets| == n && dp.table.seed == seed
    {
      RehashGood(h, dp, n, seed);
      RehashHolds(h, dp.flows, dp.table, dp.flows.Keys, n, seed);
      RehashShape(h, dp.flows, dp.table, n, seed);
      var t := CopyFlows(h, dp.flows, dp.table, n, seed);
      dp := dp.(table := t);
    }

    /** Puts a flow in the table, as the end of ovs_flow_cmd_new_or_set() does. */
    method Install(id: FlowId, m: MaskId, x: Match, acts: int)
      requires Valid() && MaskOk(x.mask) && id !in dp.flows && Finds(dp, x.key, None) && MaskFor(dp, m, x.mask)
      modifies this`dp
      ensures Valid() && Abs(dp) == SpecAdd(Abs(old(dp)), id, Entry(x.mask, x.key, acts))
    {
      var stack: Key := *;
      var masked := KeyMask(stack, x.key, x.mask);
      var flow := Flow(masked, x.key, m, h.hash(Slice(x.mask.range, masked)), acts);
      WithFlowGood(h, dp, id, flow, x.mask);
      AddIsSpec(h, dp, id, flow, x.mask);
      dp := WithFlow(h, dp, id, flow, x.mask);
    }

    /** ovs_flow_remove() and ovs_flow_free(), as ovs_flow_cmd_del() ends. */
    method Uninstall(id: FlowId)
      requires Valid() && id in dp.flows
      modifies this`dp
      ensures Valid() && Abs(dp) == SpecDrop(Abs(old(dp)), id)
    {
      WithoutFlowGood(h, dp, id);
      DropIsSpec(h, dp, id);
      dp := WithoutFlow(dp, id).(table := TableRemove(h, dp.table, id, dp.flows[id].hash));
    }

    /** The part of ovs_flow_cmd_del() that follows the parsing of the key; 'reply' says
        whether there is memory for the reply. */
    method Delete(key: Key, end: nat, reply: bool) returns (err: Error, found: Option<FlowId>)
      requires Valid() && EndOk(end)
      modifies this`dp
      ensures Valid() && SpecFinds(Abs(old(dp)), key, found)
      ensures err == DelResult(Abs(old(dp)), key, end, found, reply)
      ensures err == Success ==> Abs(dp) == SpecDrop(Abs(old(dp)), found.value)
      ensures err != Success ==> dp == old(dp)
    {
      found := Receive(key);
      if found.None? {
        return ENOENT, found;
      }
      var same := CmpUnmasked(dp.flows[found.value].unmasked, key, end);
      if !same {
        return ENOENT, found;
      }
      if !reply {
        return ENOMEM, found;
      }
      Uninstall(found.value);
      err := Success;
    }

    /** Making room, a mask and a flow in ovs_flow_cmd_new_or_set(). */
    method Create(x: Match, acts: int, mem: Memory) returns (err: Error)
      requires Valid() && MatchOk(x) && Finds(dp, x.key, None) && Fresh(dp, mem)
      modifies this`dp
      ensures Valid()
      ensures err == CreateResult(Abs(old(dp)), x, mem.flow, mem.mask)
      ensures err == Success ==> Abs(dp) == SpecAdd(Abs(old(dp)), mem.flowId, Entry(x.mask, x.key, acts))
      ensures err != Success ==> Abs(dp) == Abs(old(dp))
    {
      if dp.table.count > |dp.table.buckets| && mem.table {
        Resize(|dp.table.buckets| * 2, mem.seed);
      }
      if !mem.flow {
        return ENOMEM;
      }
      var r := FindMask(dp.masks, dp.list, x.mask);
      InOrder(h, dp, x.mask, r);
      if r.None? {
        if !mem.mask {
          return ENOENT;
        }
        r := Some(mem.maskId);
      }
      Install(mem.flowId, r.value, x, acts);
      err := Success;
    }

    /** The part of ovs_flow_cmd_new_or_set() under the lock. */
    method NewOrSet(cmd: Cmd, create: bool, x: Match, acts: int, mem: Memory)
      returns (err: Error, found: Option<FlowId>)
      requires Valid() && MatchOk(x) && Fresh(dp, mem)
      modifies this`dp
      ensures Valid() && SpecFinds(Abs(old(dp)), x.key, found)
      ensures err == PutResult(Abs(old(dp)), cmd, create, x, found, mem.flow, mem.mask)
      ensures err != Success ==> Abs(dp) == Abs(old(dp))
      ensures err == Success ==> Abs(dp) == PutEffect(Abs(old(dp)), x, acts, found, mem.flowId)
    {
      found := Receive(x.key);
      if found.None? {
        if cmd == Set {
          return ENOENT, found;
        }
        err := Create(x, acts, mem);
      } else if cmd == New && create {
        err := EEXIST;
      } else {
        var same := CmpUnmasked(dp.flows[found.value].unmasked, x.key, x.end);
        if !same {
          return EINVAL, found;
        }
        WithActsGood(h, dp, found.value, acts);
        ActsIsSpec(h, dp, found.value, acts);
        dp := dp.(flows := NewActs(dp.flows, found.value, acts));
        err := Success;
      }
    }

    /** ovs_flow_free(), with ovs_sw_flow_mask_del_ref(), from a table whose buckets are
        being taken apart. */
    method Free(id: FlowId)
      requires SharedState(h, dp) && id in dp.flows
      modifies this`dp
      ensures SharedState(h, dp) && dp.flows == old(dp).flows - {id} && dp.table == old(dp).table
    {
      WithoutFlowShared(h, dp, id);
      dp := WithoutFlow(dp, id);
    }

    /** 'left' are the flows that __flow_tbl_destroy() has still to free. */
    ghost predicate Remaining(left: seq<FlowId>)
      reads this
    {
      SharedState(h, dp) && Distinct(left) && Elements(left) == dp.flows.Keys
    }

    method FreeNext(left: seq<FlowId>, ghost rest: seq<FlowId>)
      requires left != [] && Remaining(left + rest)
      modifies this`dp
      ensures Remaining(left[1..] + rest)
    {
      NextOf(left, rest);
      Free(left[0]);
    }

    /** The walk along one bucket in __flow_tbl_destroy(). */
    method FreeChain(chain: seq<FlowId>, ghost rest: seq<FlowId>)
      requires Remaining(chain + rest)
      modifies this`dp
      ensures Remaining(rest)
    {
      var left := chain;
      while left != []
        invariant Remaining(left + rest)
      {
        FreeNext(left, rest);
        left := left[1..];
      }
      assert left + rest == rest;
    }

    /** __flow_tbl_destroy() on a table that still owns its flows: every flow is freed
        once, no mask is released that has no references, and the mask list ends up
        empty. */
    method Destroy()
      requires Valid()
      modifies this`dp
      ensures SharedState(h, dp) && dp.flows == map[] && dp.masks == map[] && dp.list == []
    {
      var buckets := dp.table.buckets;
      WalkMeetsEachOnce(h, dp.flows, dp.table, dp.flows.Keys);
      var i := 0;
      assert buckets[0..] == buckets;
      while i < |buckets|
        invariant 0 <= i <= |buckets|
        invariant Remaining(All(buckets[i..]))
      {
        assert buckets[i..][1..] == buckets[i + 1..];
        FreeChain(buckets[i], All(buckets[i + 1..]));
        i := i + 1;
      }
      assert buckets[i..] == [];
      NoFlowsNoMasks(h, dp);
    }

    /** flush_flows(): if there is memory for an empty table, it takes the place of the
        old one, which goes. */
    method Flush(table: bool, seed: nat) returns (err: Error)
      requires Valid()
      modifies this`dp
      ensures Valid() && err == if table then Success else ENOMEM
      ensures if table then Abs(dp) == Spec(map[], []) else dp == old(dp)
    {
      if !table {
        return ENOMEM;
      }
      err := Success;
      Destroy();
      dp := dp.(table := EmptyTable(TBL_MIN_BUCKETS, seed));
      EmptyGood(h, seed);
    }
  }

  /** A mask is found on the list exactly when it is in the order of masks. */
  lemma InOrder(h: Hashing, s: State, mask: Mask, r: Option<MaskId>)
    requires GoodState(h, s) && Linked(s)
    requires r.Some? ==> r.value in s.masks && s.masks[r.value].mask == mask
    requires r.None? ==> forall m | m in s.masks :: s.masks[m].mask != mask
    ensures r.Some? <==> mask in Abs(s).order
  {
    if r.Some? {
      OrderHas(s.masks, s.list, r.value);
    } else {
      OrderLacks(s.masks, s.list, mask);
    }
  }

  // ------------------------------------------------------------- whole runs

  /** One request to the datapath; the flags say what the allocator would grant. */
  datatype Op =
    | Packet(key: Key)
    | Put(cmd: Cmd, create: bool, x: Match, acts: int, table: bool, seed: nat, flow: bool, mask: bool)
    | Del(key: Key, end: nat, reply: bool)
    | DelAll(table: bool, seed: nat)
    | Reseed(seed: nat)

  datatype Out = Out(err: Error, found: Option<FlowId>, id: FlowId)

  ghost predicate OpOk(op: Op) {
    (op.Put? ==> MatchOk(op.x)) && (op.Del? ==> EndOk(op.end))
  }

  ghost predicate PutStep(p: Spec, op: Op, out: Out, p': Spec)
    requires op.Put?
  {
    && SpecFinds(p, op.x.key, out.found) && out.id !in p.entries
    && out.err == PutResult(p, op.cmd, op.create, op.x, out.found, op.flow, op.mask)
    && p' == if out.err == Success then PutEffect(p, op.x, op.acts, out.found, out.id) else p
  }

  ghost predicate DelStep(p: Spec, key: Key, end: nat, reply: bool, out: Out, p': Spec) {
    && SpecFinds(p, key, out.found)
    && out.err == DelResult(p, key, end, out.found, reply)
    && p' == if out.err == Success then SpecDrop(p, out.found.value) else p
  }

  /** What one request does to the plain entries. */
  ghost predicate SpecStep(p: Spec, op: Op, out: Out, p': Spec) {
    match op
    case Packet(key) => SpecFinds(p, key, out.found) && p' == p
    case Put(_, _, _, _, _, _, _, _) => PutStep(p, op, out, p')
    case Del(key, end, reply) => DelStep(p, key, end, reply, out, p')
    case DelAll(table, _) =>
      out.err == (if table then Success else ENOMEM) && p' == if table then Spec(map[], []) else p
    case Reseed(_) => p' == p
  }

  method StepPut(d: Datapath, op: Op) returns (out: Out)
    requires d.Valid() && op.Put? && OpOk(op)
    modifies d`dp
    ensures d.Valid() && PutStep(Abs(old(d.dp)), op, out, Abs(d.dp))
  {
    var f := FreshId(d.dp.flows.Keys);
    var m := FreshId(d.dp.masks.Keys);
    var mem := Memory(op.table, op.seed, op.flow, f, op.mask, m);
    var err, r := d.NewOrSet(op.cmd, op.create, op.x, op.acts, mem);
    out := Out(err, r, f);
  }

  method Step(d: Datapath, op: Op) returns (out: Out)
    requires d.Valid() && OpOk(op)
    modifies d`dp
    ensures d.Valid() && SpecStep(Abs(old(d.dp)), op, out, Abs(d.dp))
  {
    match op {
      case Packet(key) =>
        var r := d.Receive(key);
        out := Out(Success, r, 0);
      case Put(_, _, _, _, _, _, _, _) =>
        out := StepPut(d, op);
      case Del(key, end, reply) =>
        var err, r := d.Delete(key, end, reply);
        out := Out(err, r, 0);
      case DelAll(table, seed) =>
        var err := d.Flush(table, seed);
        out := Out(err, None, 0);
      case Reseed(seed) =>
        d.Resize(|d.dp.table.buckets|, seed);
        out := Out(Success, None, 0);
    }
  }

  /** Storage that is not in use. */
  method FreshId(used: set<nat>) returns (id: nat)
    ensures id !in used
  {
    id := 0;
    var left := used;
    while left != {}
      invariant left <= used
      invariant forall x | x in used && x !in left :: x < id
      decreases left
    {
      var x :| x in left;
      if id <= x {
        id := x + 1;
      }
      left := left - {x};
    }
  }

  /** 'ps' are the plain entries before, between and after the requests. */
  ghost predicate SpecRun(ps: seq<Spec>, ops: seq<Op>, outs: seq<Out>) {
    && |ps| == |ops| + 1 && |outs| == |ops|
    && forall i | 0 <= i < |ops| :: SpecStep(ps[i], ops[i], outs[i], ps[i + 1])
  }

  /** Every run of the hashed, mask-sharing, reference-counted table is a run of the
      plain map of wildcarded entries. */
  method Run(d: Datapath, ops: seq<Op>) returns (outs: seq<Out>, ghost ps: seq<Spec>)
    requires d.Valid() && forall op | op in ops :: OpOk(op)
    modifies d`dp
    ensures d.Valid() && SpecRun(ps, ops, outs)
    ensures ps[0] == Abs(old(d.dp)) && ps[|ops|] == Abs(d.dp)
    decreases |ops|
  {
    if ops == [] {
      return [], [Abs(d.dp)];
    }
    ghost var p := Abs(d.dp);
    var out := Step(d, ops[0]);
    outs, ps := Run(d, ops[1..]);
    PrependRun(p, ops, out, outs, ps);
    outs, ps := [out] + outs, [p] + ps;
  }

  lemma PrependRun(p: Spec, ops: seq<Op>, out: Out, outs: seq<Out>, ps: seq<Spec>)
    requires ops != [] && SpecRun(ps, ops[1..], outs) && SpecStep(p, ops[0], out, ps[0])
    ensures SpecRun([p] + ps, ops, [out] + outs)
  {
    forall i | 0 <= i < |ops|
      ensures SpecStep(([p] + ps)[i], ops[i], ([out] + outs)[i], ([p] + ps)[i + 1])
    {
      if i > 0 {
        assert ops[i] == ops[1..][i - 1];
      }
    }
  }

  lemma NextOf(left: seq<nat>, rest: seq<nat>)
    requires left != [] && Distinct(left + rest)
    ensures left[0] in Elements(left + rest)
    ensures Distinct(left[1..] + rest) && Elements(left[1..] + rest) == Elements(left + rest) - {left[0]}
  {
    var s := left + rest;
    assert s[0] == left[0] && s[1..] == left[1..] + rest;
    DistinctTail(s);
    InElements(s[1..], s[0]);
  }

  lemma {:induction false} InsertAllShape(h: Hashing, flows: Flows, t: Table, ids: seq<FlowId>)
    requires |t.buckets| > 0 && forall id | id in ids :: id in flows
    ensures InsertAll(h, flows, t, ids).seed == t.seed
    decreases |ids|
  {
    if ids != [] {
      InsertAllShape(h, flows, TableInsert(h, t, ids[0], flows[ids[0]].hash), ids[1..]);
    }
  }

  lemma RehashShape(h: Hashing, flows: Flows, t: Table, n: nat, seed: nat)
    requires n > 0 && forall id | id in All(t.buckets) :: id in flows
    ensures |Rehash(h, flows, t, n, seed).buckets| == n && Rehash(h, flows, t, n, seed).seed == seed
  {
    InsertAllShape(h, flows, EmptyTable(n, seed), All(t.buckets));
  }
}
