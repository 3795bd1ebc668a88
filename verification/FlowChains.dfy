/**
  The buckets of the kernel flow table as linked chains (datapath/flow.c).  Every flow
  carries two sets of links, hash_node[0] and hash_node[1]; a table uses one of them,
  and rehashing builds the new table with the other while packets may still be reading
  the old one.
 */
module FlowChains {
  import opened Collections
  import opened FlowKey
  import opened FlowTable

  /** The forward links of one of the two sets. */
  type Links = map<FlowId, Option<FlowId>>

  datatype Nodes = Nodes(zero: Links, one: Links)

  /** struct flow_table: the bucket heads and which set of links they start. */
  datatype Heads = Heads(heads: seq<Option<FlowId>>, count: nat, seed: nat, ver: bool)

  function Get(nodes: Nodes, ver: bool): Links {
    if ver then nodes.one else nodes.zero
  }

  function Put(nodes: Nodes, ver: bool, links: Links): Nodes {
    if ver then nodes.(one := links) else nodes.(zero := links)
  }

  /** Following the links from 'head' meets exactly 's'. */
  ghost predicate Chain(links: Links, head: Option<FlowId>, s: seq<FlowId>)
    decreases |s|
  {
    if s == [] then head == None
    else head == Some(s[0]) && s[0] in links && Chain(links, links[s[0]], s[1..])
  }

  /** A reader of the linked table meets what the plain table 't' holds. */
  ghost predicate Shows(nodes: Nodes, k: Heads, t: Table) {
    && |k.heads| == |t.buckets| && k.count == t.count && k.seed == t.seed
    && forall b | 0 <= b < |k.heads| :: Chain(Get(nodes, k.ver), k.heads[b], t.buckets[b])
  }

  /** A reader still meets the same flows after the links change exactly when the
      link of every flow that it meets is the same. */
  lemma {:induction false} ReaderSafeExactly(links: Links, links': Links, head: Option<FlowId>, s: seq<FlowId>)
    requires Chain(links, head, s)
    ensures Chain(links', head, s) <==> forall x | x in s :: x in links && x in links' && links'[x] == links[x]
    decreases |s|
  {
    if s != [] {
      if s[0] in links' && links'[s[0]] == links[s[0]] {
        ReaderSafeExactly(links, links', links[s[0]], s[1..]);
        assert s == [s[0]] + s[1..];
      } else if Chain(links', head, s) {
        SameNext(links, links', links[s[0]], links'[s[0]], s[1..]);
      }
    }
  }

  lemma SameNext(links: Links, links': Links, a: Option<FlowId>, b: Option<FlowId>, s: seq<FlowId>)
    requires Chain(links, a, s) && Chain(links', b, s)
    ensures a == b
  {
  }

  // ------------------------------------------------------------- insertion

  /** hlist_add_head_rcu() in __tbl_insert(). */
  function InsertNode(h: Hashing, nodes: Nodes, k: Heads, id: FlowId, hash: nat): (Nodes, Heads)
    requires |k.heads| > 0
  {
    var b := Slot(h, hash, k.seed, |k.heads|);
    (Put(nodes, k.ver, Get(nodes, k.ver)[id := k.heads[b]]),
     Heads(k.heads[b := Some(id)], k.count + 1, k.seed, k.ver))
  }

  ghost predicate Absent(t: Table, id: FlowId) {
    forall b | 0 <= b < |t.buckets| :: id !in t.buckets[b]
  }

  lemma InsertShows(h: Hashing, nodes: Nodes, k: Heads, t: Table, id: FlowId, hash: nat)
    requires |k.heads| > 0 && Shows(nodes, k, t) && Absent(t, id)
    ensures Shows(InsertNode(h, nodes, k, id, hash).0, InsertNode(h, nodes, k, id, hash).1, TableInsert(h, t, id, hash))
  {
    var (nodes', k') := InsertNode(h, nodes, k, id, hash);
    var t' := TableInsert(h, t, id, hash);
    forall b | 0 <= b < |k'.heads| ensures Chain(Get(nodes', k.ver), k'.heads[b], t'.buckets[b]) {
      ReaderSafeExactly(Get(nodes, k.ver), Get(nodes', k.ver), k.heads[b], t.buckets[b]);
      ChainLinked(Get(nodes, k.ver), k.heads[b], t.buckets[b]);
      if b == Slot(h, hash, k.seed, |k.heads|) {
        assert t'.buckets[b][1..] == t.buckets[b];
      }
    }
  }

  lemma {:induction false} ChainLinked(links: Links, head: Option<FlowId>, s: seq<FlowId>)
    requires Chain(links, head, s)
    ensures forall x | x in s :: x in links
    decreases |s|
  {
    if s != [] {
      ChainLinked(links, links[s[0]], s[1..]);
      assert s == [s[0]] + s[1..];
    }
  }

  // ------------------------------------------------------------- rehashing

  /** Every flow of 'ids' inserted in order. */
  function InsertNodes(h: Hashing, flows: map<FlowId, Flow>, nodes: Nodes, k: Heads, ids: seq<FlowId>): (Nodes, Heads)
    requires |k.heads| > 0 && forall id | id in ids :: id in flows
    decreases |ids|
  {
    if ids == [] then (nodes, k)
    else
      var (nodes', k') := InsertNode(h, nodes, k, ids[0], flows[ids[0]].hash);
      InsertNodes(h, flows, nodes', k', ids[1..])
  }

  function EmptyHeads(n: nat, seed: nat, ver: bool): Heads {
    Heads(seq(n, i => None), 0, seed, ver)
  }

  /** __flow_tbl_rehash(): the new table uses the other set of links. */
  function RehashNodes(h: Hashing, flows: map<FlowId, Flow>, nodes: Nodes, k: Heads, t: Table, n: nat, seed: nat)
    : (Nodes, Heads)
    requires n > 0 && forall id | id in All(t.buckets) :: id in flows
  {
    InsertNodes(h, flows, nodes, EmptyHeads(n, seed, !k.ver), All(t.buckets))
  }

  lemma {:induction false} InsertNodesShows(h: Hashing, flows: map<FlowId, Flow>, nodes: Nodes, k: Heads, t: Table,
                                            ids: seq<FlowId>)
    requires |k.heads| > 0 && Shows(nodes, k, t) && Distinct(ids)
    requires forall id | id in ids :: id in flows && Absent(t, id)
    ensures var (nodes', k') := InsertNodes(h, flows, nodes, k, ids);
            Shows(nodes', k', InsertAll(h, flows, t, ids)) && k'.ver == k.ver && Get(nodes', !k.ver) == Get(nodes, !k.ver)
    decreases |ids|
  {
    if ids != [] {
      var hash := flows[ids[0]].hash;
      DistinctTail(ids);
      InsertShows(h, nodes, k, t, ids[0], hash);
      var (nodes', k') := InsertNode(h, nodes, k, ids[0], hash);
      forall id | id in ids[1..] ensures id in flows && Absent(TableInsert(h, t, ids[0], hash), id) {
        assert Absent(t, id);
      }
      InsertNodesShows(h, flows, nodes', k', TableInsert(h, t, ids[0], hash), ids[1..]);
    }
  }

  /** A rehash shows all the flows in the new table and leaves the links that a reader
      of the old table follows as they were. */
  lemma RehashShows(h: Hashing, flows: map<FlowId, Flow>, nodes: Nodes, k: Heads, t: Table, n: nat, seed: nat)
    requires n > 0 && Shows(nodes, k, t) && Distinct(All(t.buckets)) && forall id | id in All(t.buckets) :: id in flows
    ensures var (nodes', k') := RehashNodes(h, flows, nodes, k, t, n, seed);
            Shows(nodes', k', Rehash(h, flows, t, n, seed)) && Shows(nodes', k, t)
  {
    InsertNodesShows(h, flows, nodes, EmptyHeads(n, seed, !k.ver), EmptyTable(n, seed), All(t.buckets));
  }

  /** flow_table_copy_flows(), walking the old chains link by link. */
  method CopyChains(h: Hashing, flows: map<FlowId, Flow>, nodes: Nodes, k: Heads, n: nat, seed: nat, ghost t: Table)
    returns (nodes': Nodes, k': Heads)
    requires n > 0 && Shows(nodes, k, t) && Distinct(All(t.buckets)) && forall id | id in All(t.buckets) :: id in flows
    ensures (nodes', k') == RehashNodes(h, flows, nodes, k, t, n, seed)
    ensures Shows(nodes', k', Rehash(h, flows, t, n, seed)) && Shows(nodes', k, t)
  {
    nodes', k' := nodes, EmptyHeads(n, seed, !k.ver);
    var i := 0;
    assert t.buckets[0..] == t.buckets;
    while i < |k.heads|
      invariant 0 <= i <= |k.heads| == |t.buckets|
      invariant forall id | id in All(t.buckets[i..]) :: id in flows
      invariant |k'.heads| == n && k'.ver == !k.ver && Get(nodes', k.ver) == Get(nodes, k.ver)
      invariant InsertNodes(h, flows, nodes', k', All(t.buckets[i..])) == RehashNodes(h, flows, nodes, k, t, n, seed)
    {
      assert t.buckets[i..][1..] == t.buckets[i + 1..];
      nodes', k' := CopyChain(h, flows, nodes', k', k.heads[i], k.ver, t.buckets[i], All(t.buckets[i + 1..]));
      i := i + 1;
    }
    RehashShows(h, flows, nodes, k, t, n, seed);
  }

  /** The walk along one old chain. */
  method CopyChain(h: Hashing, flows: map<FlowId, Flow>, nodes: Nodes, k: Heads, head: Option<FlowId>, ver: bool,
                   ghost chain: seq<FlowId>, ghost rest: seq<FlowId>)
    returns (nodes': Nodes, k': Heads)
    requires |k.heads| > 0 && k.ver == !ver && Chain(Get(nodes, ver), head, chain)
    requires forall id | id in chain + rest :: id in flows
    ensures |k'.heads| == |k.heads| && k'.ver == k.ver && Get(nodes', ver) == Get(nodes, ver)
    ensures InsertNodes(h, flows, nodes', k', rest) == InsertNodes(h, flows, nodes, k, chain + rest)
  {
    nodes', k' := nodes, k;
    var at := head;
    ghost var left := chain;
    while at != None
      invariant |k'.heads| == |k.heads| && k'.ver == k.ver && Get(nodes', ver) == Get(nodes, ver)
      invariant Chain(Get(nodes, ver), at, left)
      invariant forall id | id in left + rest :: id in flows
      invariant InsertNodes(h, flows, nodes', k', left + rest) == InsertNodes(h, flows, nodes, k, chain + rest)
      decreases |left|
    {
      assert (left + rest)[0] == left[0] && (left + rest)[1..] == left[1..] + rest;
      var r := InsertNode(h, nodes', k', at.value, flows[at.value].hash);
      at := Get(nodes', ver)[at.value];
      nodes', k' := r.0, r.1;
      left := left[1..];
    }
    assert left + rest == rest;
  }

  // ------------------------------------------- two rehashes in one grace period

  /** The links and the head determine what a reader meets. */
  lemma {:induction false} ChainUnique(links: Links, head: Option<FlowId>, s: seq<FlowId>, r: seq<FlowId>)
    requires Chain(links, head, s) && Chain(links, head, r)
    ensures s == r
    decreases |s|
  {
    if s != [] {
      ChainUnique(links, links[s[0]], s[1..], r[1..]);
      assert s == [s[0]] + s[1..] && r == [r[0]] + r[1..];
    }
  }

  /** A reader that starts inside a chain meets the rest of it. */
  lemma {:induction false} ChainSuffix(links: Links, head: Option<FlowId>, s: seq<FlowId>, p: nat)
    requires Chain(links, head, s) && p < |s|
    ensures Chain(links, Some(s[p]), s[p..])
    decreases p
  {
    if p == 0 {
      assert s[0..] == s;
    } else {
      ChainSuffix(links, links[s[0]], s[1..], p - 1);
      assert s[1..][p - 1..] == s[p..];
    }
  }

  ghost predicate EndsWith(s: seq<FlowId>, r: seq<FlowId>) {
    exists p :: 0 <= p <= |s| && s[p..] == r
  }

  /** Every chain of 't' is empty or the end of a chain of 'u'. */
  ghost predicate EndsOf(t: Table, u: Table) {
    forall b | 0 <= b < |t.buckets| :: t.buckets[b] == [] || EndOf(t.buckets[b], u)
  }

  ghost predicate EndOf(s: seq<FlowId>, u: Table) {
    exists c :: 0 <= c < |u.buckets| && EndsWith(u.buckets[c], s)
  }

  /** With links that show 'u', a reader that starts at the first flow of 's' meets 's'
      exactly when 's' ends a chain of 'u'. */
  lemma ReaderAmong(nodes: Nodes, k: Heads, u: Table, s: seq<FlowId>)
    requires Shows(nodes, k, u) && s != [] && s[0] in All(u.buckets)
    ensures Chain(Get(nodes, k.ver), Some(s[0]), s) <==> EndOf(s, u)
  {
    var links := Get(nodes, k.ver);
    AllContents(u.buckets, s[0]);
    if Chain(links, Some(s[0]), s) {
      var c :| 0 <= c < |u.buckets| && s[0] in u.buckets[c];
      var p :| 0 <= p < |u.buckets[c]| && u.buckets[c][p] == s[0];
      ChainSuffix(links, k.heads[c], u.buckets[c], p);
      ChainUnique(links, Some(s[0]), s, u.buckets[c][p..]);
      assert EndsWith(u.buckets[c], s);
    }
    if EndOf(s, u) {
      var c :| 0 <= c < |u.buckets| && EndsWith(u.buckets[c], s);
      var p :| 0 <= p <= |u.buckets[c]| && u.buckets[c][p..] == s;
      ChainSuffix(links, k.heads[c], u.buckets[c], p);
    }
  }

  /** A reader of 't', when the same set of links has come to show 'u'. */
  lemma ReadersAmong(nodes: Nodes, k: Heads, t: Table, nodes': Nodes, k': Heads, u: Table)
    requires Shows(nodes, k, t) && Shows(nodes', k', u) && k'.ver == k.ver
    requires forall id | id in All(t.buckets) :: id in All(u.buckets)
    ensures Shows(nodes', k, t) <==> EndsOf(t, u)
  {
    forall b | 0 <= b < |t.buckets|
      ensures Chain(Get(nodes', k.ver), k.heads[b], t.buckets[b]) <==> t.buckets[b] == [] || EndOf(t.buckets[b], u)
    {
      var s := t.buckets[b];
      assert Chain(Get(nodes, k.ver), k.heads[b], s);
      if s != [] {
        AllContents(t.buckets, s[0]);
        ReaderAmong(nodes', k', u, s);
      }
    }
  }

  lemma Walks(h: Hashing, flows: map<FlowId, Flow>, t: Table, ids: set<FlowId>)
    requires Holds(h, flows, t, ids)
    ensures Distinct(All(t.buckets)) && (forall id :: id in All(t.buckets) <==> id in ids)
    ensures forall id | id in All(t.buckets) :: id in flows
  {
    WalkMeetsEachOnce(h, flows, t, ids);
    forall id ensures id in All(t.buckets) <==> id in ids {
      InElements(All(t.buckets), id);
    }
  }

  /** The links and the table after two rehashes with no grace period between them. */
  ghost function Twice(h: Hashing, flows: map<FlowId, Flow>, nodes: Nodes, k: Heads, t: Table, ids: set<FlowId>,
                       n1: nat, seed1: nat, n2: nat, seed2: nat): (Nodes, Table)
    requires Holds(h, flows, t, ids) && n1 > 0 && n2 > 0
  {
    Walks(h, flows, t, ids);
    RehashHolds(h, flows, t, ids, n1, seed1);
    var t1 := Rehash(h, flows, t, n1, seed1);
    Walks(h, flows, t1, ids);
    var (nodes1, k1) := RehashNodes(h, flows, nodes, k, t, n1, seed1);
    (RehashNodes(h, flows, nodes1, k1, t1, n2, seed2).0, Rehash(h, flows, t1, n2, seed2))
  }

  /** The second rehash uses the links of the first table again.  A packet that is still
      reading the first table meets what it should exactly when every chain of it is
      empty or ends a chain of the table that is the result, for all sizes and seeds. */
  lemma TwoRehashesSafeExactly(h: Hashing, flows: map<FlowId, Flow>, nodes: Nodes, k: Heads, t: Table, ids: set<FlowId>,
                               n1: nat, seed1: nat, n2: nat, seed2: nat)
    requires Holds(h, flows, t, ids) && Shows(nodes, k, t) && n1 > 0 && n2 > 0
    ensures var (nodes2, u) := Twice(h, flows, nodes, k, t, ids, n1, seed1, n2, seed2);
            && Holds(h, flows, u, ids) && u.seed == seed2 && |u.buckets| == n2
            && (Shows(nodes2, k, t) <==> EndsOf(t, u))
  {
    Walks(h, flows, t, ids);
    RehashHolds(h, flows, t, ids, n1, seed1);
    RehashShows(h, flows, nodes, k, t, n1, seed1);
    var t1 := Rehash(h, flows, t, n1, seed1);
    var (nodes1, k1) := RehashNodes(h, flows, nodes, k, t, n1, seed1);
    Walks(h, flows, t1, ids);
    RehashHolds(h, flows, t1, ids, n2, seed2);
    RehashShows(h, flows, nodes1, k1, t1, n2, seed2);
    var (nodes2, k2) := RehashNodes(h, flows, nodes1, k1, t1, n2, seed2);
    var u := Rehash(h, flows, t1, n2, seed2);
    Walks(h, flows, u, ids);
    RehashKeepsForm(h, flows, nodes, k, t, n1, seed1);
    RehashKeepsForm(h, flows, nodes1, k1, t1, n2, seed2);
    ReadersAmong(nodes, k, t, nodes2, k2, u);
  }

  lemma RehashKeepsForm(h: Hashing, flows: map<FlowId, Flow>, nodes: Nodes, k: Heads, t: Table, n: nat, seed: nat)
    requires n > 0 && forall id | id in All(t.buckets) :: id in flows
    ensures RehashNodes(h, flows, nodes, k, t, n, seed).1.ver == !k.ver
    ensures Rehash(h, flows, t, n, seed).seed == seed && |Rehash(h, flows, t, n, seed).buckets| == n
  {
    InsertKeepsForm(h, flows, nodes, EmptyHeads(n, seed, !k.ver), EmptyTable(n, seed), All(t.buckets));
  }

  lemma {:induction false} InsertKeepsForm(h: Hashing, flows: map<FlowId, Flow>, nodes: Nodes, k: Heads, t: Table,
                                           ids: seq<FlowId>)
    requires |k.heads| > 0 && |t.buckets| > 0 && forall id | id in ids :: id in flows
    ensures InsertNodes(h, flows, nodes, k, ids).1.ver == k.ver
    ensures InsertAll(h, flows, t, ids).seed == t.seed
    decreases |ids|
  {
    if ids != [] {
      var (nodes', k') := InsertNode(h, nodes, k, ids[0], flows[ids[0]].hash);
      InsertKeepsForm(h, flows, nodes', k', TableInsert(h, t, ids[0], flows[ids[0]].hash), ids[1..]);
    }
  }

  /** Flows that follow each other in a chain that ends one of 'u' share a bucket of 'u'. */
  lemma NeighboursTogether(h: Hashing, flows: map<FlowId, Flow>, u: Table, ids: set<FlowId>, s: seq<FlowId>, i: nat)
    requires Holds(h, flows, u, ids) && EndOf(s, u) && i + 1 < |s|
    ensures s[i] in flows && s[i + 1] in flows
    ensures Slot(h, flows[s[i]].hash, u.seed, |u.buckets|) == Slot(h, flows[s[i + 1]].hash, u.seed, |u.buckets|)
  {
    var c :| 0 <= c < |u.buckets| && EndsWith(u.buckets[c], s);
    Ending(u.buckets[c], s, i);
    Ending(u.buckets[c], s, i + 1);
    HasSlot(h, flows, u, ids, c, s[i]);
    HasSlot(h, flows, u, ids, c, s[i + 1]);
  }

  lemma Ending(chain: seq<FlowId>, s: seq<FlowId>, i: nat)
    requires EndsWith(chain, s) && i < |s|
    ensures s[i] in chain
  {
    var p :| 0 <= p <= |chain| && chain[p..] == s;
    assert chain[p + i] == s[i];
  }

  lemma HasSlot(h: Hashing, flows: map<FlowId, Flow>, u: Table, ids: set<FlowId>, c: nat, x: FlowId)
    requires Holds(h, flows, u, ids) && c < |u.buckets| && x in u.buckets[c]
    ensures x in flows && Slot(h, flows[x].hash, u.seed, |u.buckets|) == c
  {
    assert BucketOk(h, flows, u, ids, c);
  }

  /** Two flows that follow each other in a chain of the first table and go to different
      buckets of the last one: a reader of the first table no longer meets what it
      should. */
  lemma SecondRehashHarmsReader(h: Hashing, flows: map<FlowId, Flow>, nodes: Nodes, k: Heads, t: Table, ids: set<FlowId>,
                                n1: nat, seed1: nat, n2: nat, seed2: nat, b: nat, i: nat)
    requires Holds(h, flows, t, ids) && Shows(nodes, k, t) && n1 > 0 && n2 > 0
    requires b < |t.buckets| && i + 1 < |t.buckets[b]| && t.buckets[b][i] in flows && t.buckets[b][i + 1] in flows
    requires Slot(h, flows[t.buckets[b][i]].hash, seed2, n2) != Slot(h, flows[t.buckets[b][i + 1]].hash, seed2, n2)
    ensures !Shows(Twice(h, flows, nodes, k, t, ids, n1, seed1, n2, seed2).0, k, t)
  {
    TwoRehashesSafeExactly(h, flows, nodes, k, t, ids, n1, seed1, n2, seed2);
    var u := Twice(h, flows, nodes, k, t, ids, n1, seed1, n2, seed2).1;
    if EndOf(t.buckets[b], u) {
      NeighboursTogether(h, flows, u, ids, t.buckets[b], i);
    }
  }

  // ------------------------------------------------------------ an instance

  /** Hashing that puts everything in the first bucket for seed 0, and flows 1 and 2 in
      different buckets for seed 1. */
  function SomeHashing(): Hashing {
    Hashing((words: seq<Word>) => 0, (hash: nat, seed: nat) => if seed == 0 then 0 else hash)
  }

  /** A table of 'n' buckets with two flows in the first one. */
  function Colliding(n: nat): Table
    requires n > 0
  {
    Table([[1, 2]] + seq(n - 1, i => []), 2, 0)
  }

  function CollidingHeads(n: nat): Heads
    requires n > 0
  {
    Heads([Some(1)] + seq(n - 1, i => None), 2, 0, false)
  }

  function CollidingNodes(): Nodes {
    Nodes(map[1 := Some(2), 2 := None], map[])
  }

  lemma SomeSlots(n: nat)
    requires n >= TBL_MIN_BUCKETS
    ensures forall x: nat :: Slot(SomeHashing(), x, 0, n) == 0
    ensures Slot(SomeHashing(), 1, 1, 2 * n) == 1 && Slot(SomeHashing(), 2, 1, 2 * n) == 2
  {
    assert 0 % n == 0 && 1 % (2 * n) == 1 && 2 % (2 * n) == 2;
  }

  lemma CollidingHolds(flows: map<FlowId, Flow>, n: nat)
    requires 1 in flows && 2 in flows && n >= TBL_MIN_BUCKETS
    ensures Holds(SomeHashing(), flows, Colliding(n), {1, 2})
  {
    SomeSlots(n);
    FirstBucketHolds(SomeHashing(), flows, Colliding(n));
  }

  lemma FirstBucketHolds(h: Hashing, flows: map<FlowId, Flow>, t: Table)
    requires 1 in flows && 2 in flows && |t.buckets| > 0 && t.count == 2
    requires t.buckets[0] == [1, 2] && forall b | 0 < b < |t.buckets| :: t.buckets[b] == []
    requires forall x: nat :: Slot(h, x, t.seed, |t.buckets|) == 0
    ensures Holds(h, flows, t, {1, 2})
  {
    forall b | 0 <= b < |t.buckets| ensures BucketOk(h, flows, t, {1, 2}, b) {
    }
  }

  lemma CollidingShows(n: nat)
    requires n > 0
    ensures Shows(CollidingNodes(), CollidingHeads(n), Colliding(n))
  {
    var (k, t) := (CollidingHeads(n), Colliding(n));
    assert [1, 2][1..] == [2] && [2][1..] == [];
    assert Chain(CollidingNodes().zero, Some(1), [1, 2]);
    forall b | 0 <= b < |t.buckets| ensures Chain(CollidingNodes().zero, k.heads[b], t.buckets[b]) {
      assert b == 0 ==> t.buckets[b] == [1, 2] && k.heads[b] == Some(1);
      assert b > 0 ==> t.buckets[b] == [] && k.heads[b] == None;
    }
  }

  /** It does happen at every size that a kernel table can have: rehash with the same
      size and then expand, with another seed. */
  lemma TwoRehashesCanHarm(flows: map<FlowId, Flow>, n: nat)
    requires 1 in flows && 2 in flows && flows[1].hash == 1 && flows[2].hash == 2 && n >= TBL_MIN_BUCKETS
    ensures Holds(SomeHashing(), flows, Colliding(n), {1, 2})
    ensures Shows(CollidingNodes(), CollidingHeads(n), Colliding(n))
    ensures !Shows(Twice(SomeHashing(), flows, CollidingNodes(), CollidingHeads(n), Colliding(n), {1, 2}, n, 0, 2 * n, 1).0,
                   CollidingHeads(n), Colliding(n))
  {
    CollidingHolds(flows, n);
    CollidingShows(n);
    SomeSlots(n);
    NeighboursPart(SomeHashing(), flows, CollidingNodes(), CollidingHeads(n), Colliding(n), n);
  }

  lemma NeighboursPart(h: Hashing, flows: map<FlowId, Flow>, nodes: Nodes, k: Heads, t: Table, n: nat)
    requires Holds(h, flows, t, {1, 2}) && Shows(nodes, k, t) && n > 0 && t.buckets[0] == [1, 2]
    requires 1 in flows && 2 in flows
    requires Slot(h, flows[1].hash, 1, 2 * n) != Slot(h, flows[2].hash, 1, 2 * n)
    ensures !Shows(Twice(h, flows, nodes, k, t, {1, 2}, n, 0, 2 * n, 1).0, k, t)
  {
    SecondRehashHarmsReader(h, flows, nodes, k, t, {1, 2}, n, 0, 2 * n, 1, 0, 0);
  }
}
