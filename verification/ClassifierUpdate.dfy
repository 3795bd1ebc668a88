/**
  What inserting and removing one rule does to a table and to the list of
  tables, and why the index invariant survives (lib/classifier.c).
 */
module ClassifierUpdate {
  import opened Collections
  import opened ClassifierModel

  // ------------------------------------------------------- one rule list

  /** The first position whose rule does not outrank 'p'. */
  function InsertionPoint(list: seq<Rule>, p: nat): (k: nat)
    ensures k <= |list|
    ensures forall i | 0 <= i < k :: list[i].priority > p
    ensures k < |list| ==> list[k].priority <= p
  {
    if list == [] || p >= list[0].priority then 0 else 1 + InsertionPoint(list[1..], p)
  }

  /** The rule of 'list' that a rule of priority 'p' displaces, if any. */
  function Displaced(list: seq<Rule>, p: nat): Option<Rule> {
    var k := InsertionPoint(list, p);
    if k < |list| && list[k].priority == p then Some(list[k]) else None
  }

  function ListInsert(list: seq<Rule>, r: Rule): seq<Rule> {
    var k := InsertionPoint(list, r.priority);
    if Displaced(list, r.priority).Some? then list[k := r] else list[..k] + [r] + list[k..]
  }

  /** At most one rule of a list has a given priority, and it is the one displaced. */
  lemma DisplacedExactly(list: seq<Rule>, p: nat, x: Rule)
    requires Descending(list) && x in list
    ensures Displaced(list, p) == Some(x) <==> x.priority == p
  {
    var i :| 0 <= i < |list| && list[i] == x;
    var k := InsertionPoint(list, p);
    assert i < k ==> list[i].priority > p;
    assert i > k ==> list[i].priority < list[k].priority;
  }

  lemma SplicedMembers(list: seq<Rule>, k: nat, r: Rule, x: Rule)
    requires k <= |list|
    ensures x in list[..k] + [r] + list[k..] <==> x == r || x in list
  {
    assert list == list[..k] + list[k..];
  }

  lemma OverwrittenMembers(list: seq<Rule>, k: nat, r: Rule, x: Rule)
    requires Descending(list) && k < |list|
    ensures x in list[k := r] <==> x == r || (x in list && x != list[k])
  {
    if x in list && x != list[k] {
      var i :| 0 <= i < |list| && list[i] == x;
      assert list[k := r][i] == x;
    }
    assert list[k := r][k] == r;
  }

  lemma ListInsertMembers(list: seq<Rule>, r: Rule, x: Rule)
    requires Descending(list)
    ensures x in ListInsert(list, r) <==> x == r || (x in list && x.priority != r.priority)
    ensures x in list ==> (Displaced(list, r.priority) == Some(x) <==> x.priority == r.priority)
  {
    var k := InsertionPoint(list, r.priority);
    if x in list {
      DisplacedExactly(list, r.priority, x);
    }
    if Displaced(list, r.priority).Some? {
      OverwrittenMembers(list, k, r, x);
    } else {
      SplicedMembers(list, k, r, x);
    }
  }

  lemma OverwrittenDescending(list: seq<Rule>, k: nat, r: Rule)
    requires Descending(list) && k < |list| && list[k].priority == r.priority
    ensures Descending(list[k := r])
  {
  }

  lemma SplicedDescending(list: seq<Rule>, k: nat, r: Rule)
    requires Descending(list) && k <= |list|
    requires forall i | 0 <= i < k :: list[i].priority > r.priority
    requires forall i | k <= i < |list| :: list[i].priority < r.priority
    ensures Descending(list[..k] + [r] + list[k..])
  {
    var out := list[..k] + [r] + list[k..];
    assert forall i | 0 <= i < |out| :: out[i] == if i < k then list[i] else if i == k then r else list[i - 1];
  }

  lemma ListInsertDescending(list: seq<Rule>, r: Rule)
    requires Descending(list)
    ensures Descending(ListInsert(list, r))
  {
    var k := InsertionPoint(list, r.priority);
    if Displaced(list, r.priority).Some? {
      OverwrittenDescending(list, k, r);
    } else {
      SplicedDescending(list, k, r);
    }
  }

  lemma ListInsertOk(mask: Bits, v: Bits, list: seq<Rule>, r: Rule)
    requires list == [] || ListOk(mask, v, list)
    requires r.criteria == Minimatch(v, mask)
    ensures ListOk(mask, v, ListInsert(list, r))
    ensures forall x :: x in ListInsert(list, r) <==> x == r || (x in list && x.priority != r.priority)
  {
    ListInsertDescending(list, r);
    forall x ensures x in ListInsert(list, r) <==> x == r || (x in list && x.priority != r.priority) {
      ListInsertMembers(list, r, x);
    }
  }

  /** Taking a rule out of its list keeps the rest, in order. */
  lemma ListRemoveOk(mask: Bits, v: Bits, list: seq<Rule>, k: nat)
    requires ListOk(mask, v, list) && k < |list|
    ensures var out := list[..k] + list[k + 1..];
            && (out == [] || ListOk(mask, v, out))
            && (forall x :: x in out <==> x in list && x != list[k])
  {
    var out := list[..k] + list[k + 1..];
    forall x ensures x in out <==> x in list && x != list[k] {
      if x in list && x != list[k] {
        var i :| 0 <= i < |list| && list[i] == x;
        assert x == if i < k then out[i] else out[i - 1];
      }
    }
  }

  // ------------------------------------------------------------ one table

  /** 't' with the list for value 'v' replaced, or dropped when empty. */
  function WithList(t: Table, v: Bits, list: seq<Rule>): Table {
    t.(rules := if list == [] then t.rules - {v} else t.rules[v := list])
  }

  function ListFor(t: Table, v: Bits): seq<Rule> {
    if v in t.rules then t.rules[v] else []
  }

  lemma WithListRules(t: Table, v: Bits, list: seq<Rule>)
    requires ListsOk(t) && v <= t.mask
    requires list == [] || ListOk(t.mask, v, list)
    ensures ListsOk(WithList(t, v, list))
    ensures forall x :: x in TableRules(WithList(t, v, list)) <==>
                        if x.criteria == Minimatch(v, t.mask) then x in list else x in TableRules(t)
  {
    var t' := WithList(t, v, list);
    forall x
      ensures x in TableRules(t') <==>
              if x.criteria == Minimatch(v, t.mask) then x in list else x in TableRules(t)
    {
      RuleInTable(t, x);
      RuleInTable(t', x);
    }
  }

  /** The cached figures after a rule of priority 'p' was added. */
  function CountInsertion(t: Table, p: nat): (u: Table)
    ensures u.mask == t.mask && u.rules == t.rules && u.nTableRules == t.nTableRules
  {
    if p == t.maxPriority then t.(maxCount := t.maxCount + 1)
    else if p > t.maxPriority then t.(maxPriority := p, maxCount := 1)
    else t
  }

  /** 't' with rule 'r' in its list and counted. */
  function WithRule(t: Table, r: Rule): Table {
    CountInsertion(WithList(t, r.criteria.value, ListInsert(ListFor(t, r.criteria.value), r)), r.priority)
      .(nTableRules := t.nTableRules + 1)
  }

  lemma AtPriorityAdd(s: set<Rule>, r: Rule, q: nat)
    requires r !in s
    ensures |AtPriority(s + {r}, q)| == |AtPriority(s, q)| + if r.priority == q then 1 else 0
  {
    assert AtPriority(s + {r}, q) == AtPriority(s, q) + (if r.priority == q then {r} else {});
  }

  lemma NoneAbove(s: set<Rule>, top: nat, q: nat)
    requires top < q && forall r | r in s :: r.priority <= top
    ensures AtPriority(s, q) == {}
  {
  }

  lemma AddCount(t: Table, s: set<Rule>, r: Rule)
    requires ExactOn(t, s) && r !in s
    ensures var t' := CountInsertion(t, r.priority).(nTableRules := t.nTableRules + 1);
            ExactOn(t', s + {r}) && t'.maxCount > 0
  {
    AtPriorityAdd(s, r, CountInsertion(t, r.priority).maxPriority);
    if r.priority > t.maxPriority {
      NoneAbove(s, t.maxPriority, r.priority);
    }
  }

  lemma TableAddRules(t: Table, r: Rule)
    requires ListsOk(t)
    requires WellFormed(r) && r.criteria.mask == t.mask
    requires Displaced(ListFor(t, r.criteria.value), r.priority).None?
    ensures var t' := WithList(t, r.criteria.value, ListInsert(ListFor(t, r.criteria.value), r));
            ListsOk(t') && r !in TableRules(t) && TableRules(t') == TableRules(t) + {r}
  {
    var v := r.criteria.value;
    var list := ListFor(t, v);
    ListInsertOk(t.mask, v, list, r);
    WithListRules(t, v, ListInsert(list, r));
    forall x ensures x in list ==> x.priority != r.priority {
      ListInsertMembers(list, r, x);
    }
    RuleInTable(t, r);
    var t' := WithList(t, v, ListInsert(list, r));
    forall x ensures x in TableRules(t') <==> x in TableRules(t) + {r} {
      RuleInTable(t, x);
    }
  }

  /** Adding a rule that displaces nothing: one more rule, exact cache. */
  lemma TableAdd(t: Table, r: Rule)
    requires ListsOk(t) && CacheOk(t)
    requires WellFormed(r) && r.criteria.mask == t.mask
    requires Displaced(ListFor(t, r.criteria.value), r.priority).None?
    ensures TableOk(WithRule(t, r))
    ensures r !in TableRules(t) && TableRules(WithRule(t, r)) == TableRules(t) + {r}
  {
    TableAddRules(t, r);
    var t' := WithList(t, r.criteria.value, ListInsert(ListFor(t, r.criteria.value), r));
    AddCount(t', TableRules(t), r);
    assert r.criteria.value in t'.rules;
  }

  /** Replacing a rule by one with the same key leaves the cache exact. */
  lemma TableReplace(t: Table, r: Rule)
    requires TableOk(t)
    requires WellFormed(r) && r.criteria.mask == t.mask
    requires Displaced(ListFor(t, r.criteria.value), r.priority).Some?
    ensures var list := ListFor(t, r.criteria.value);
            var gone := Displaced(list, r.priority).value;
            var t' := WithList(t, r.criteria.value, ListInsert(list, r));
            && TableOk(t')
            && gone in TableRules(t) && SameKey(gone, r)
            && TableRules(t') == TableRules(t) - {gone} + {r}
  {
    var list := ListFor(t, r.criteria.value);
    TableReplaceRules(t, r);
    RuleInTable(t, r);
    if r in list { ListInsertMembers(list, r, r); }
    SwapCount(TableRules(t), Displaced(list, r.priority).value, r, t.maxPriority);
  }

  lemma TableReplaceRules(t: Table, r: Rule)
    requires ListsOk(t)
    requires WellFormed(r) && r.criteria.mask == t.mask
    requires Displaced(ListFor(t, r.criteria.value), r.priority).Some?
    ensures var list := ListFor(t, r.criteria.value);
            var gone := Displaced(list, r.priority).value;
            var t' := WithList(t, r.criteria.value, ListInsert(list, r));
            && ListsOk(t')
            && gone in TableRules(t) && SameKey(gone, r)
            && TableRules(t') == TableRules(t) - {gone} + {r}
  {
    var v := r.criteria.value;
    var list := ListFor(t, v);
    var gone := Displaced(list, r.priority).value;
    var t' := WithList(t, v, ListInsert(list, r));
    ListInsertOk(t.mask, v, list, r);
    WithListRules(t, v, ListInsert(list, r));
    RuleInTable(t, gone);
    forall x ensures x in TableRules(t') <==> x in TableRules(t) - {gone} + {r} {
      RuleInTable(t, x);
      ListInsertMembers(list, r, x);
    }
  }

  lemma SwapCount(s: set<Rule>, gone: Rule, r: Rule, p: nat)
    requires gone in s && (r in s ==> r == gone) && gone.priority == r.priority
    ensures |s - {gone} + {r}| == |s|
    ensures |AtPriority(s - {gone} + {r}, p)| == |AtPriority(s, p)|
  {
    if gone.priority == p {
      assert AtPriority(s - {gone} + {r}, p) == AtPriority(s, p) - {gone} + {r};
    } else {
      assert AtPriority(s - {gone} + {r}, p) == AtPriority(s, p);
    }
  }

  /** The heads of the lists: the rules that sit in the hash map itself. */
  ghost function Heads(t: Table, keys: set<Bits>): set<Rule>
    requires forall v | v in keys :: v in t.rules && t.rules[v] != []
  {
    set v | v in keys :: t.rules[v][0]
  }

  /** Rescanning only the list heads finds every rule of the top priority. */
  lemma HeadsSuffice(t: Table, p: nat)
    requires ListsOk(t)
    requires forall v | v in t.rules :: t.rules[v][0].priority <= p
    ensures forall r | r in TableRules(t) :: r.priority <= p
    ensures AtPriority(TableRules(t), p) == AtPriority(Heads(t, t.rules.Keys), p)
  {
    forall r | r in TableRules(t)
      ensures r.priority <= p
      ensures r.priority == p ==> r == t.rules[r.criteria.value][0]
    {
      RuleInTable(t, r);
      var list := t.rules[r.criteria.value];
      var i :| 0 <= i < |list| && list[i] == r;
      assert i > 0 ==> list[0].priority > list[i].priority;
    }
    forall v | v in t.rules ensures t.rules[v][0] in TableRules(t) {
      assert t.rules[v][0] in t.rules[v];
    }
  }

  /** 'n' of the heads for 'seen' have the priority 'p', and none has more. */
  ghost predicate HeadCount(t: Table, seen: set<Bits>, p: nat, n: int)
    requires forall v | v in seen :: v in t.rules && t.rules[v] != []
  {
    && (forall v | v in seen :: t.rules[v][0].priority <= p)
    && n == |AtPriority(Heads(t, seen), p)|
  }

  /** One step of the rescan: the next head has priority 'q'. */
  function CountNext(p: nat, n: int, q: nat): (nat, int) {
    if q > p then (q, 1) else if q == p then (p, n + 1) else (p, n)
  }

  lemma CountHead(t: Table, seen: set<Bits>, v: Bits, p: nat, n: int)
    requires ListsOk(t) && seen <= t.rules.Keys && v in t.rules && v !in seen
    requires HeadCount(t, seen, p, n)
    ensures var (p', n') := CountNext(p, n, t.rules[v][0].priority); HeadCount(t, seen + {v}, p', n')
  {
    var head := t.rules[v][0];
    forall u | u in t.rules ensures t.rules[u][0].criteria.value == u {
      assert t.rules[u][0] in t.rules[u];
    }
    assert Heads(t, seen + {v}) == Heads(t, seen) + {head};
    var heads := Heads(t, seen);
    if head.priority > p {
      assert AtPriority(heads + {head}, head.priority) == {head};
    } else if head.priority == p {
      assert AtPriority(heads + {head}, p) == AtPriority(heads, p) + {head};
    } else {
      assert AtPriority(heads + {head}, p) == AtPriority(heads, p);
    }
  }

  /** The rescan of all heads but those for 'todo' has come to 'p' and 'n'. */
  ghost predicate Scanned(t: Table, todo: set<Bits>, p: nat, n: int)
    requires ListsOk(t)
  {
    && HeadCount(t, t.rules.Keys - todo, p, n)
    && (if t.rules.Keys <= todo then p == 0 else n > 0)
  }

  lemma NoHeads(t: Table)
    requires ListsOk(t)
    ensures Scanned(t, t.rules.Keys, 0, 0)
  {
    assert t.rules.Keys - t.rules.Keys == {};
    assert AtPriority(Heads(t, {}), 0) == {};
  }

  lemma ScanHead(t: Table, todo: set<Bits>, v: Bits, p: nat, n: int)
    requires ListsOk(t) && todo <= t.rules.Keys && v in todo && Scanned(t, todo, p, n)
    ensures var (p', n') := CountNext(p, n, t.rules[v][0].priority); Scanned(t, todo - {v}, p', n')
  {
    var seen := t.rules.Keys - todo;
    assert t.rules.Keys - (todo - {v}) == seen + {v};
    CountHead(t, seen, v, p, n);
    if seen == {} {
      assert t.rules.Keys <= todo;
      assert AtPriority(Heads(t, seen), 0) == {};
    }
  }

  lemma AllScanned(t: Table, p: nat, n: int)
    requires ListsOk(t) && Scanned(t, {}, p, n)
    ensures forall r | r in TableRules(t) :: r.priority <= p
    ensures n == |AtPriority(TableRules(t), p)|
    ensures t.rules != map[] ==> n > 0
  {
    assert t.rules.Keys - {} == t.rules.Keys;
    HeadsSuffice(t, p);
  }

  /** The figures of a table that has lost a rule of priority 'p' but has not
      been discounted yet. */
  ghost predicate Discountable(t: Table, s: set<Rule>, p: nat) {
    && t.nTableRules == |s|
    && (forall r | r in s :: r.priority <= t.maxPriority)
    && t.maxCount == |AtPriority(s, t.maxPriority)| + (if p == t.maxPriority then 1 else 0)
    && t.maxCount > 0
  }

  lemma TopIsReached(t: Table, s: set<Rule>, max: nat)
    requires forall r | r in s :: r.priority <= t.maxPriority
    requires |AtPriority(s, max)| > 0
    ensures max <= t.maxPriority
  {
    var r :| r in AtPriority(s, max);
  }

  lemma TakeCount(t: Table, s: set<Rule>, r: Rule)
    requires ExactOn(t, s) && r in s
    ensures |s - {r}| == t.nTableRules - 1
    ensures |AtPriority(s - {r}, t.maxPriority)| ==
            t.maxCount - (if r.priority == t.maxPriority then 1 else 0)
  {
    var p := t.maxPriority;
    assert AtPriority(s - {r}, p) == AtPriority(s, p) - (if r.priority == p then {r} else {});
  }

  /** Removing a rule: one rule fewer, everything else as before. */
  lemma TableTake(t: Table, r: Rule, k: nat)
    requires ListsOk(t)
    requires r in TableRules(t) && r.criteria.value in t.rules
    requires k < |t.rules[r.criteria.value]| && t.rules[r.criteria.value][k] == r
    ensures var list := t.rules[r.criteria.value];
            var t' := WithList(t, r.criteria.value, list[..k] + list[k + 1..]);
            && ListsOk(t')
            && TableRules(t') == TableRules(t) - {r}
            && (TableRules(t') == {} <==> t'.rules == map[])
  {
    var v := r.criteria.value;
    var list := t.rules[v];
    var rest := list[..k] + list[k + 1..];
    var t' := WithList(t, v, rest);
    RuleInTable(t, r);
    ListRemoveOk(t.mask, v, list, k);
    WithListRules(t, v, rest);
    forall x ensures x in TableRules(t') <==> x in TableRules(t) - {r} {
      RuleInTable(t, x);
    }
    if t'.rules != map[] {
      var w :| w in t'.rules;
      assert t'.rules[w][0] in t'.rules[w];
      assert t'.rules[w][0] in TableRules(t');
    }
  }

  // ------------------------------------------------------- list of tables

  /** Unlinking the table at 'i'. */
  function Unlink(ts: seq<Table>, i: nat): seq<Table>
    requires i < |ts|
  {
    ts[..i] + ts[i + 1..]
  }

  /** Linking 't' in front of position 'k'. */
  function Place(ts: seq<Table>, k: nat, t: Table): seq<Table>
    requires k <= |ts|
  {
    ts[..k] + [t] + ts[k..]
  }

  lemma PlaceOrder(ts: seq<Table>, k: nat, t: Table)
    requires k <= |ts| && PriorityOrder(ts)
    requires k > 0 ==> ts[k - 1].maxPriority >= t.maxPriority
    requires k < |ts| ==> ts[k].maxPriority <= t.maxPriority
    ensures PriorityOrder(Place(ts, k, t))
  {
    assert forall j | 0 <= j < k :: ts[j].maxPriority >= t.maxPriority;
    assert forall j | k <= j < |ts| :: ts[j].maxPriority <= t.maxPriority;
  }

  lemma WithoutOrder(ts: seq<Table>, i: nat)
    requires i < |ts|
    ensures PriorityOrder(ts) ==> PriorityOrder(Unlink(ts, i))
    ensures DistinctMasks(ts) ==> DistinctMasks(Unlink(ts, i))
  {
  }

  lemma PlaceDistinct(ts: seq<Table>, k: nat, t: Table)
    requires k <= |ts| && DistinctMasks(ts)
    requires forall j | 0 <= j < |ts| :: ts[j].mask != t.mask
    ensures DistinctMasks(Place(ts, k, t))
  {
    var out := Place(ts, k, t);
    forall i, j | 0 <= i < j < |out|
      ensures out[i].mask != out[j].mask
    {
      assert i < k ==> out[i] == ts[i];
      assert i > k ==> out[i] == ts[i - 1];
      assert j < k ==> out[j] == ts[j];
      assert j > k ==> out[j] == ts[j - 1];
    }
  }

  lemma PlaceRules(ts: seq<Table>, k: nat, t: Table)
    requires k <= |ts|
    ensures AllRules(Place(ts, k, t)) == AllRules(ts) + TableRules(t)
  {
    ThreeParts(ts[..k], t, ts[k..]);
    assert ts == ts[..k] + ts[k..];
    AllRulesConcat(ts[..k], ts[k..]);
  }

  lemma ThreeParts(a: seq<Table>, t: Table, b: seq<Table>)
    ensures AllRules(a + [t] + b) == AllRules(a) + AllRules(b) + TableRules(t)
  {
    AllRulesConcat(a + [t], b);
    AllRulesConcat(a, [t]);
    OneTable(t);
  }

  lemma OneTable(t: Table)
    ensures AllRules([t]) == TableRules(t)
  {
    assert [t][1..] == [];
  }

  lemma {:induction false} OtherMasks(ts: seq<Table>, mask: Bits)
    requires forall t | t in ts :: ListsOk(t) && t.mask != mask
    ensures forall r | r in AllRules(ts) :: r.criteria.mask != mask
  {
    if ts != [] {
      assert ts[0] in ts;
      forall r | r in TableRules(ts[0]) ensures r.criteria.mask != mask { RuleInTable(ts[0], r); }
      OtherMasks(ts[1..], mask);
    }
  }

  lemma OwnMask(t: Table)
    requires ListsOk(t)
    ensures forall r | r in TableRules(t) :: r.criteria.mask == t.mask
  {
    forall r | r in TableRules(t) ensures r.criteria.mask == t.mask { RuleInTable(t, r); }
  }

  lemma WithoutMembers(ts: seq<Table>, i: nat)
    requires i < |ts|
    ensures forall t :: t in ts <==> t == ts[i] || t in Unlink(ts, i)
  {
    assert ts == ts[..i] + [ts[i]] + ts[i + 1..];
  }

  lemma WithoutMasks(ts: seq<Table>, i: nat)
    requires i < |ts| && DistinctMasks(ts)
    ensures forall t | t in Unlink(ts, i) :: t.mask != ts[i].mask
  {
  }

  lemma PlaceMembers(ts: seq<Table>, k: nat, t: Table)
    requires k <= |ts|
    ensures forall x :: x in Place(ts, k, t) <==> x == t || x in ts
  {
    assert ts == ts[..k] + ts[k..];
  }

  lemma WithoutRules(ts: seq<Table>, i: nat)
    requires i < |ts| && DistinctMasks(ts)
    requires forall t | t in ts :: ListsOk(t)
    ensures AllRules(ts) == AllRules(Unlink(ts, i)) + TableRules(ts[i])
    ensures forall r | r in AllRules(Unlink(ts, i)) :: r.criteria.mask != ts[i].mask
  {
    var w := Unlink(ts, i);
    assert Place(w, i, ts[i]) == ts;
    PlaceRules(w, i, ts[i]);
    WithoutMembers(ts, i);
    WithoutMasks(ts, i);
    OtherMasks(w, ts[i].mask);
  }

  /** An index in which only the table at 'i' may still be empty. */
  ghost predicate IndexBut(ts: seq<Table>, nRules: int, i: nat) {
    && i < |ts|
    && (forall t | t in Unlink(ts, i) :: TableOk(t))
    && ListsOk(ts[i]) && CacheOk(ts[i])
    && (ts[i].rules != map[] ==> TableOk(ts[i]))
    && DistinctMasks(ts)
    && PriorityOrder(ts)
    && nRules == |AllRules(ts)|
  }

  lemma EmptyTableOk(mask: Bits)
    ensures var t := Table(mask, map[], 0, 0, 0);
            ListsOk(t) && CacheOk(t) && TableRules(t) == {}
  {
    assert RulesOf(map[]) == {};
    assert AtPriority({}, 0) == {};
  }

  lemma AppendRules(ts: seq<Table>, t: Table)
    ensures AllRules(ts + [t]) == AllRules(ts) + TableRules(t)
  {
    PlaceRules(ts, |ts|, t);
    assert Place(ts, |ts|, t) == ts + [t];
  }

  /** insert_table(): a new empty table goes to the back. */
  lemma EmptyTableAppended(ts: seq<Table>, nRules: int, mask: Bits)
    requires IndexOk(ts, nRules) && forall t | t in ts :: t.mask != mask
    ensures var ts' := ts + [Table(mask, map[], 0, 0, 0)];
            IndexBut(ts', nRules, |ts|) && AllRules(ts') == AllRules(ts)
  {
    var t := Table(mask, map[], 0, 0, 0);
    EmptyTableOk(mask);
    AppendedBut(ts, nRules, t);
  }

  lemma AppendedBut(ts: seq<Table>, nRules: int, t: Table)
    requires IndexOk(ts, nRules) && ListsOk(t) && CacheOk(t) && t.rules == map[] && TableRules(t) == {}
    requires t.maxPriority == 0 && forall u | u in ts :: u.mask != t.mask
    ensures IndexBut(ts + [t], nRules, |ts|) && AllRules(ts + [t]) == AllRules(ts)
  {
    assert Unlink(ts + [t], |ts|) == ts && (ts + [t])[|ts|] == t;
    AppendRules(ts, t);
    AppendedOrder(ts, t);
  }

  lemma AppendedOrder(ts: seq<Table>, t: Table)
    requires DistinctMasks(ts) && PriorityOrder(ts) && t.maxPriority == 0
    requires forall u | u in ts :: u.mask != t.mask
    ensures DistinctMasks(ts + [t]) && PriorityOrder(ts + [t])
  {
  }

  lemma OkIsBut(ts: seq<Table>, nRules: int, i: nat)
    requires IndexOk(ts, nRules) && i < |ts|
    ensures IndexBut(ts, nRules, i)
  {
    WithoutMembers(ts, i);
    assert ts[i] in ts;
  }

  /** A rule with r's key can only be in the list that r belongs to. */
  lemma KeyInList(ts: seq<Table>, nRules: int, i: nat, r: Rule, x: Rule)
    requires IndexBut(ts, nRules, i) && ts[i].mask == r.criteria.mask
    requires x in AllRules(ts) && SameKey(x, r)
    ensures x in TableRules(ts[i])
    ensures Displaced(ListFor(ts[i], r.criteria.value), r.priority) == Some(x)
  {
    WithoutMembers(ts, i);
    RuleInIndex(ts, i, x);
    RuleInTable(ts[i], x);
    ListInsertMembers(ListFor(ts[i], r.criteria.value), r, x);
  }

  lemma RelocateRules(ts: seq<Table>, i: nat, t: Table, k: nat)
    requires i < |ts| && k < |ts| && DistinctMasks(ts)
    requires forall t | t in ts :: ListsOk(t)
    requires ListsOk(t) && t.mask == ts[i].mask
    ensures var rest := AllRules(ts) - TableRules(ts[i]);
            && TableRules(ts[i]) <= AllRules(ts)
            && rest !! TableRules(t)
            && AllRules(Place(Unlink(ts, i), k, t)) == rest + TableRules(t)
            && |rest + TableRules(t)| == |AllRules(ts)| - |TableRules(ts[i])| + |TableRules(t)|
  {
    var w := Unlink(ts, i);
    WithoutRules(ts, i);
    PlaceRules(w, k, t);
    OwnMask(t);
    OwnMask(ts[i]);
    assert AllRules(w) == AllRules(ts) - TableRules(ts[i]);
  }

  /** Exchanging one table for another with the same mask, in its proper place,
      keeps the index valid and changes only that table's rules. */
  lemma Relocate(ts: seq<Table>, nRules: int, i: nat, t: Table, k: nat, nRules': int)
    requires IndexBut(ts, nRules, i) && k < |ts|
    requires TableOk(t) && t.mask == ts[i].mask
    requires PriorityOrder(Place(Unlink(ts, i), k, t))
    requires nRules' - nRules == |TableRules(t)| - |TableRules(ts[i])|
    ensures IndexOk(Place(Unlink(ts, i), k, t), nRules')
  {
    WithoutMembers(ts, i);
    RelocateRules(ts, i, t, k);
    RelocateMasks(ts, i, t, k);
    PlaceMembers(Unlink(ts, i), k, t);
  }

  lemma RelocateMasks(ts: seq<Table>, i: nat, t: Table, k: nat)
    requires i < |ts| && k < |ts| && DistinctMasks(ts) && t.mask == ts[i].mask
    ensures DistinctMasks(Place(Unlink(ts, i), k, t))
  {
    WithoutOrder(ts, i);
    PlaceDistinct(Unlink(ts, i), k, t);
  }

  /** destroy_table(): dropping a table drops exactly its rules. */
  lemma DropTable(ts: seq<Table>, nRules: int, i: nat, r: Rule)
    requires IndexOk(ts, nRules) && i < |ts| && TableRules(ts[i]) == {r}
    ensures IndexOk(Unlink(ts, i), nRules - 1)
    ensures AllRules(Unlink(ts, i)) == AllRules(ts) - {r}
  {
    WithoutMembers(ts, i);
    WithoutOrder(ts, i);
    WithoutRules(ts, i);
    OwnMask(ts[i]);
    assert AllRules(Unlink(ts, i)) == AllRules(ts) - {r};
  }

  /** Moving a table forward past the tables it now outranks keeps the order. */
  lemma MovedForward(ts: seq<Table>, i: nat, j: nat, t: Table)
    requires j <= i < |ts| && PriorityOrder(ts)
    requires t.maxPriority >= ts[i].maxPriority
    requires j > 0 ==> ts[j - 1].maxPriority >= t.maxPriority
    requires forall m | j <= m < i :: ts[m].maxPriority <= t.maxPriority
    ensures PriorityOrder(Place(Unlink(ts, i), j, t))
  {
    WithoutOrder(ts, i);
    PlaceOrder(Unlink(ts, i), j, t);
  }

  /** Moving a table back behind the tables that now outrank it keeps the order. */
  lemma MovedBack(ts: seq<Table>, i: nat, k: nat, t: Table)
    requires i < k <= |ts| && PriorityOrder(ts)
    requires t.maxPriority <= ts[i].maxPriority
    requires k < |ts| ==> ts[k].maxPriority <= t.maxPriority
    requires forall m | i < m < k :: ts[m].maxPriority >= t.maxPriority
    ensures PriorityOrder(Place(Unlink(ts, i), k - 1, t))
  {
    WithoutOrder(ts, i);
    PlaceOrder(Unlink(ts, i), k - 1, t);
  }

  // ------------------------------------------------------ whole operations

  lemma ListsEverywhere(ts: seq<Table>, nRules: int, i: nat)
    requires IndexBut(ts, nRules, i)
    ensures forall t | t in ts :: ListsOk(t)
  {
    WithoutMembers(ts, i);
  }

  lemma PlaceSame(ts: seq<Table>, i: nat, t: Table)
    requires i < |ts|
    ensures Place(Unlink(ts, i), i, t) == ts[i := t]
    ensures Unlink(ts[i := t], i) == Unlink(ts, i)
  {
  }

  /** Overwriting a table without changing its top priority keeps the order. */
  lemma Overwrite(w: seq<Table>, j: nat, t: Table, u: Table)
    requires j <= |w| && t.maxPriority == u.maxPriority
    requires PriorityOrder(Place(w, j, t))
    ensures Place(w, j, t)[j] == t
    ensures Place(w, j, t)[j := u] == Place(w, j, u)
    ensures PriorityOrder(Place(w, j, u))
  {
    var (a, b) := (Place(w, j, t), Place(w, j, u));
    assert forall m | 0 <= m < |a| :: a[m].maxPriority == b[m].maxPriority;
  }

  lemma SameOrder(ts: seq<Table>, i: nat, t: Table)
    requires i < |ts| && t.maxPriority == ts[i].maxPriority && PriorityOrder(ts)
    ensures PriorityOrder(ts[i := t])
  {
  }

  /** insert_rule() when a rule with the same key is there already. */
  lemma Replaced(ts: seq<Table>, nRules: int, i: nat, r: Rule, t: Table)
    requires IndexBut(ts, nRules, i) && WellFormed(r) && ts[i].mask == r.criteria.mask
    requires Displaced(ListFor(ts[i], r.criteria.value), r.priority).Some?
    requires t == WithList(ts[i], r.criteria.value, ListInsert(ListFor(ts[i], r.criteria.value), r))
    ensures IndexOk(ts[i := t], nRules)
    ensures var d := Displaced(ListFor(ts[i], r.criteria.value), r.priority).value;
            d in AllRules(ts) && SameKey(d, r) && AllRules(ts[i := t]) == AllRules(ts) - {d} + {r}
  {
    TableReplace(ts[i], r);
    PlaceSame(ts, i, t);
    SameOrder(ts, i, t);
    ListsEverywhere(ts, nRules, i);
    RelocateRules(ts, i, t, i);
    Relocate(ts, nRules, i, t, i, nRules);
  }

  /** insert_rule() when no rule with the same key is there. */
  lemma Added(ts: seq<Table>, nRules: int, i: nat, r: Rule, j: nat, t: Table)
    requires IndexBut(ts, nRules, i) && WellFormed(r) && ts[i].mask == r.criteria.mask
    requires Displaced(ListFor(ts[i], r.criteria.value), r.priority).None?
    requires t == WithRule(ts[i], r) && j < |ts|
    requires PriorityOrder(Place(Unlink(ts, i), j, t))
    ensures IndexOk(Place(Unlink(ts, i), j, t), nRules + 1)
    ensures AllRules(Place(Unlink(ts, i), j, t)) == AllRules(ts) + {r}
  {
    TableAdd(ts[i], r);
    ListsEverywhere(ts, nRules, i);
    RelocateRules(ts, i, t, j);
    Relocate(ts, nRules, i, t, j, nRules + 1);
  }

  lemma NoSameKey(ts: seq<Table>, nRules: int, i: nat, r: Rule)
    requires IndexBut(ts, nRules, i) && ts[i].mask == r.criteria.mask
    requires Displaced(ListFor(ts[i], r.criteria.value), r.priority).None?
    ensures forall x | x in AllRules(ts) :: !SameKey(x, r)
  {
    forall x | x in AllRules(ts) ensures !SameKey(x, r) {
      if SameKey(x, r) { KeyInList(ts, nRules, i, r, x); }
    }
  }

  /** 't' after classifier_remove() unlinked the rule at position 'k' of its list. */
  function Unlinked(t: Table, v: Bits, k: nat): Table
    requires k < |ListFor(t, v)|
  {
    var list := ListFor(t, v);
    WithList(t, v, list[..k] + list[k + 1..]).(nTableRules := t.nTableRules - 1)
  }

  lemma UnlinkedTable(t: Table, r: Rule, k: nat)
    requires TableOk(t) && r in TableRules(t)
    requires k < |ListFor(t, r.criteria.value)| && ListFor(t, r.criteria.value)[k] == r
    ensures var u := Unlinked(t, r.criteria.value, k);
            && ListsOk(u)
            && TableRules(u) == TableRules(t) - {r}
            && (u.nTableRules == 0 <==> TableRules(t) == {r})
            && (u.nTableRules != 0 ==> u.rules != map[] && Discountable(u, TableRules(u), r.priority))
  {
    TableTake(t, r, k);
    TakeCount(t, TableRules(t), r);
    if t.nTableRules == 1 {
      assert TableRules(t) - {r} == {};
    }
  }

  /** classifier_remove() when the table keeps other rules. */
  lemma Removed(ts: seq<Table>, nRules: int, i: nat, r: Rule, j: nat, t: Table)
    requires IndexOk(ts, nRules) && i < |ts| && j < |ts| && r in TableRules(ts[i])
    requires TableOk(t) && t.mask == ts[i].mask && TableRules(t) == TableRules(ts[i]) - {r}
    requires PriorityOrder(Place(Unlink(ts, i), j, t))
    ensures IndexOk(Place(Unlink(ts, i), j, t), nRules - 1)
    ensures AllRules(Place(Unlink(ts, i), j, t)) == AllRules(ts) - {r}
  {
    WithoutMembers(ts, i);
    assert TableOk(ts[i]);
    RelocateRules(ts, i, t, j);
    Relocate(ts, nRules, i, t, j, nRules - 1);
  }
}
