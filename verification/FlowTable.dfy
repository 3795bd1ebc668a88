/**
  The kernel datapath's flow table (datapath/flow.c, datapath/datapath.c): flows
  share masks, masks are reference counted, and a packet is looked up once per mask
  in one hash table.
 */
module FlowTable {
  import opened Collections
  import opened FlowKey

  type FlowId = nat
  type MaskId = nat

  /** The two hash functions: jhash2() over the masked words and jhash_1word() with
      the table's seed.  Nothing is assumed about either. */
  datatype Hashing = Hashing(hash: seq<Word> -> nat, mix: (nat, nat) -> nat)

  /** struct sw_flow: 'key' is meaningful only within the mask's range. */
  datatype Flow = Flow(key: Key, unmasked: Key, mask: MaskId, hash: nat, acts: int)

  /** struct sw_flow_mask. */
  datatype MaskRef = MaskRef(mask: Mask, refs: nat)

  /** struct flow_table, each bucket's chain as a sequence. */
  datatype Table = Table(buckets: seq<seq<FlowId>>, count: nat, seed: nat)

  const TBL_MIN_BUCKETS: nat := 1024

  // ---------------------------------------------------------- sequences

  ghost function Elements(s: seq<nat>): set<nat> {
    if s == [] then {} else {s[0]} + Elements(s[1..])
  }

  lemma {:induction false} InElements(s: seq<nat>, x: nat)
    ensures x in Elements(s) <==> x in s
  {
    if s != [] {
      InElements(s[1..], x);
      assert s == [s[0]] + s[1..];
    }
  }

  /** Every flow of a list of buckets, in the order in which a walk meets them. */
  function All(bs: seq<seq<FlowId>>): seq<FlowId> {
    if bs == [] then [] else bs[0] + All(bs[1..])
  }

  lemma {:induction false} AllContents(bs: seq<seq<FlowId>>, x: FlowId)
    ensures x in All(bs) <==> exists b :: 0 <= b < |bs| && x in bs[b]
  {
    if bs != [] {
      AllContents(bs[1..], x);
      if x in All(bs[1..]) {
        var b :| 0 <= b < |bs[1..]| && x in bs[1..][b];
        assert x in bs[b + 1];
      }
      if exists b :: 0 <= b < |bs| && x in bs[b] {
        var b :| 0 <= b < |bs| && x in bs[b];
        if b > 0 {
          assert bs[b] == bs[1..][b - 1];
        }
      }
    }
  }

  // ---------------------------------------------------- the hash buckets

  function Slot(h: Hashing, hash: nat, seed: nat, n: nat): (b: nat)
    requires n > 0
    ensures b < n
  {
    h.mix(hash, seed) % n
  }

  /** The table holds exactly the flows 'ids', each once, in the bucket that its
      hash selects. */
  ghost predicate Holds(h: Hashing, flows: map<FlowId, Flow>, t: Table, ids: set<FlowId>) {
    && |t.buckets| > 0
    && ids <= flows.Keys
    && (forall b | 0 <= b < |t.buckets| :: BucketOk(h, flows, t, ids, b))
    && (forall id | id in ids :: InItsBucket(h, flows, t, id))
    && t.count == |ids|
  }

  ghost predicate BucketOk(h: Hashing, flows: map<FlowId, Flow>, t: Table, ids: set<FlowId>, b: nat)
    requires b < |t.buckets| && ids <= flows.Keys
  {
    && Distinct(t.buckets[b])
    && (forall id | id in t.buckets[b] :: id in ids && Slot(h, flows[id].hash, t.seed, |t.buckets|) == b)
  }

  ghost predicate InItsBucket(h: Hashing, flows: map<FlowId, Flow>, t: Table, id: FlowId)
    requires |t.buckets| > 0 && id in flows
  {
    id in t.buckets[Slot(h, flows[id].hash, t.seed, |t.buckets|)]
  }

  /** __tbl_insert(). */
  function TableInsert(h: Hashing, t: Table, id: FlowId, hash: nat): Table
    requires |t.buckets| > 0
  {
    var b := Slot(h, hash, t.seed, |t.buckets|);
    Table(t.buckets[b := [id] + t.buckets[b]], t.count + 1, t.seed)
  }

  /** ovs_flow_remove(). */
  function TableRemove(h: Hashing, t: Table, id: FlowId, hash: nat): Table
    requires |t.buckets| > 0 && t.count > 0
  {
    var b := Slot(h, hash, t.seed, |t.buckets|);
    Table(t.buckets[b := Without(t.buckets[b], id)], t.count - 1, t.seed)
  }

  lemma InsertHolds(h: Hashing, flows: map<FlowId, Flow>, t: Table, ids: set<FlowId>, id: FlowId)
    requires Holds(h, flows, t, ids) && id in flows && id !in ids
    ensures Holds(h, flows, TableInsert(h, t, id, flows[id].hash), ids + {id})
  {
    var t' := TableInsert(h, t, id, flows[id].hash);
    forall b | 0 <= b < |t'.buckets| ensures BucketOk(h, flows, t', ids + {id}, b) {
      InsertBucketOk(h, flows, t, ids, id, b);
    }
    forall x | x in ids + {id} ensures InItsBucket(h, flows, t', x) {
      if x != id {
        assert InItsBucket(h, flows, t, x);
      }
    }
  }

  lemma InsertBucketOk(h: Hashing, flows: map<FlowId, Flow>, t: Table, ids: set<FlowId>, id: FlowId, b: nat)
    requires b < |t.buckets| && ids <= flows.Keys && BucketOk(h, flows, t, ids, b) && id in flows && id !in ids
    ensures BucketOk(h, flows, TableInsert(h, t, id, flows[id].hash), ids + {id}, b)
  {
    var t' := TableInsert(h, t, id, flows[id].hash);
    if b == Slot(h, flows[id].hash, t.seed, |t.buckets|) {
      DistinctCons(id, t.buckets[b]);
    }
  }

  lemma RemoveHolds(h: Hashing, flows: map<FlowId, Flow>, t: Table, ids: set<FlowId>, id: FlowId)
    requires Holds(h, flows, t, ids) && id in ids
    ensures t.count > 0
    ensures Holds(h, flows, TableRemove(h, t, id, flows[id].hash), ids - {id})
  {
    assert ids == (ids - {id}) + {id};
    var t' := TableRemove(h, t, id, flows[id].hash);
    var s := Slot(h, flows[id].hash, t.seed, |t.buckets|);
    assert BucketOk(h, flows, t, ids, s);
    WithoutContents(t.buckets[s], id);
    forall x | x in ids - {id} ensures InItsBucket(h, flows, t', x) {
      assert InItsBucket(h, flows, t, x);
    }
    forall b | 0 <= b < |t'.buckets| ensures BucketOk(h, flows, t', ids - {id}, b) {
      assert BucketOk(h, flows, t, ids, b);
    }
  }

  /** What a table holds depends only on the hashes of the flows in it. */
  lemma HoldsFrame(h: Hashing, flows: map<FlowId, Flow>, flows': map<FlowId, Flow>, t: Table, ids: set<FlowId>)
    requires Holds(h, flows, t, ids)
    requires forall id | id in ids :: id in flows' && flows'[id].hash == flows[id].hash
    ensures Holds(h, flows', t, ids)
  {
    forall b | 0 <= b < |t.buckets| ensures BucketOk(h, flows', t, ids, b) {
      assert BucketOk(h, flows, t, ids, b);
    }
    forall id | id in ids ensures InItsBucket(h, flows', t, id) {
      assert InItsBucket(h, flows, t, id);
    }
  }

  lemma {:induction false} BucketsDistinct(h: Hashing, flows: map<FlowId, Flow>, t: Table, ids: set<FlowId>, k: nat)
    requires Holds(h, flows, t, ids) && k <= |t.buckets|
    ensures Distinct(All(t.buckets[k..]))
    decreases |t.buckets| - k
  {
    if k < |t.buckets| {
      BucketsDistinct(h, flows, t, ids, k + 1);
      assert t.buckets[k..][1..] == t.buckets[k + 1..];
      assert BucketOk(h, flows, t, ids, k);
      forall x | x in t.buckets[k] ensures x !in All(t.buckets[k + 1..]) {
        var rest := t.buckets[k + 1..];
        AllContents(rest, x);
        forall b | 0 <= b < |rest| ensures x !in rest[b] {
          assert BucketOk(h, flows, t, ids, k + 1 + b);
        }
      }
      DistinctConcat(t.buckets[k], All(t.buckets[k + 1..]));
    }
  }

  /** A walk over all the buckets meets every flow of the table exactly once. */
  lemma WalkMeetsEachOnce(h: Hashing, flows: map<FlowId, Flow>, t: Table, ids: set<FlowId>)
    requires Holds(h, flows, t, ids)
    ensures Distinct(All(t.buckets)) && Elements(All(t.buckets)) == ids
  {
    BucketsDistinct(h, flows, t, ids, 0);
    assert t.buckets[0..] == t.buckets;
    forall id ensures id in Elements(All(t.buckets)) <==> id in ids {
      InElements(All(t.buckets), id);
      AllContents(t.buckets, id);
      if id in ids {
        assert InItsBucket(h, flows, t, id);
      } else {
        forall b | 0 <= b < |t.buckets| ensures id !in t.buckets[b] {
          assert BucketOk(h, flows, t, ids, b);
        }
      }
    }
  }

  /** flow_table_copy_flows(): every flow of 'ids' goes into 't', in order. */
  function InsertAll(h: Hashing, flows: map<FlowId, Flow>, t: Table, ids: seq<FlowId>): (t': Table)
    requires |t.buckets| > 0 && forall id | id in ids :: id in flows
    ensures |t'.buckets| == |t.buckets|
    decreases |ids|
  {
    if ids == [] then t
    else InsertAll(h, flows, TableInsert(h, t, ids[0], flows[ids[0]].hash), ids[1..])
  }

  ghost predicate Insertable(flows: map<FlowId, Flow>, held: set<FlowId>, ids: seq<FlowId>) {
    Distinct(ids) && forall id | id in ids :: id in flows && id !in held
  }

  lemma InsertableTail(flows: map<FlowId, Flow>, held: set<FlowId>, ids: seq<FlowId>)
    requires Insertable(flows, held, ids) && ids != []
    ensures Insertable(flows, held + {ids[0]}, ids[1..])
    ensures held + {ids[0]} + Elements(ids[1..]) == held + Elements(ids)
  {
    DistinctTail(ids);
  }

  lemma {:induction false} InsertAllHolds(h: Hashing, flows: map<FlowId, Flow>, t: Table, held: set<FlowId>,
                                          ids: seq<FlowId>)
    requires Holds(h, flows, t, held) && Insertable(flows, held, ids)
    ensures Holds(h, flows, InsertAll(h, flows, t, ids), held + Elements(ids))
    decreases |ids|
  {
    if ids == [] {
      assert held + Elements(ids) == held;
    } else {
      InsertableTail(flows, held, ids);
      InsertHolds(h, flows, t, held, ids[0]);
      InsertAllHolds(h, flows, TableInsert(h, t, ids[0], flows[ids[0]].hash), held + {ids[0]}, ids[1..]);
    }
  }

  /** alloc_buckets() and __flow_tbl_alloc(). */
  function EmptyTable(n: nat, seed: nat): Table {
    Table(seq(n, i => []), 0, seed)
  }

  lemma EmptyHolds(h: Hashing, flows: map<FlowId, Flow>, n: nat, seed: nat)
    requires n > 0
    ensures Holds(h, flows, EmptyTable(n, seed), {})
  {
    forall b | 0 <= b < n ensures BucketOk(h, flows, EmptyTable(n, seed), {}, b) {
    }
  }

  /** __flow_tbl_rehash(). */
  function Rehash(h: Hashing, flows: map<FlowId, Flow>, t: Table, n: nat, seed: nat): Table
    requires n > 0 && forall id | id in All(t.buckets) :: id in flows
  {
    InsertAll(h, flows, EmptyTable(n, seed), All(t.buckets))
  }

  /** Rehashing with any seed and any number of buckets keeps the flows and their
      count. */
  lemma RehashHolds(h: Hashing, flows: map<FlowId, Flow>, t: Table, ids: set<FlowId>, n: nat, seed: nat)
    requires Holds(h, flows, t, ids) && n > 0
    ensures forall id | id in All(t.buckets) :: id in flows
    ensures Holds(h, flows, Rehash(h, flows, t, n, seed), ids)
    ensures Rehash(h, flows, t, n, seed).count == t.count
  {
    WalkMeetsEachOnce(h, flows, t, ids);
    forall id | id in All(t.buckets) ensures id in flows {
      InElements(All(t.buckets), id);
    }
    EmptyHolds(h, flows, n, seed);
    InsertAllHolds(h, flows, EmptyTable(n, seed), {}, All(t.buckets));
    assert {} + ids == ids;
  }
}
