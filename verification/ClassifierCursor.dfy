/**
  Cursor iteration over an unchanged classifier (cls_cursor_* in
  lib/classifier.c): every loosely matching rule is visited exactly once.
 */
module ClassifierCursor {
  import opened Collections
  import opened ClassifierModel

  /** The order in which the hash maps happen to enumerate one table. */
  datatype TableView = TableView(mask: Bits, heads: seq<seq<Rule>>)

  type Layout = seq<TableView>

  /** A rule's place: table, hash map node, position in the circular list. */
  datatype Pos = Pos(table: nat, head: nat, item: nat)

  ghost predicate ViewOk(tv: TableView) {
    && (forall h | 0 <= h < |tv.heads| ::
          tv.heads[h] != [] && ListOk(tv.mask, tv.heads[h][0].criteria.value, tv.heads[h]))
    && (forall g, h | 0 <= g < h < |tv.heads| ::
          tv.heads[g][0].criteria.value != tv.heads[h][0].criteria.value)
  }

  ghost predicate LayoutOk(l: Layout) {
    && (forall i | 0 <= i < |l| :: ViewOk(l[i]))
    && (forall i, j | 0 <= i < j < |l| :: l[i].mask != l[j].mask)
  }

  predicate At(l: Layout, p: Pos) {
    p.table < |l| && p.head < |l[p.table].heads| && p.item < |l[p.table].heads[p.head]|
  }

  /** cls_cursor_init(): a catch-all target is no target. */
  function CursorTarget(target: Option<Minimatch>): Option<Minimatch> {
    if target.Some? && target.value.mask != {} then target else None
  }

  /** rule_matches(). */
  predicate RuleMatches(r: Rule, target: Option<Minimatch>) {
    target.None? || EqualIn(r.criteria.value, target.value.value, target.value.mask)
  }

  predicate TableMatches(tv: TableView, target: Option<Minimatch>) {
    target.None? || !HasExtra(tv.mask, target.value.mask)
  }

  predicate HeadMatches(list: seq<Rule>, target: Option<Minimatch>) {
    list != [] && RuleMatches(list[0], target)
  }

  /** The first hash map node at or after 'h' whose rule matches. */
  function FirstHead(heads: seq<seq<Rule>>, h: nat, target: Option<Minimatch>): (k: nat)
    requires h <= |heads|
    ensures h <= k <= |heads|
    decreases |heads| - h
  {
    if h == |heads| || HeadMatches(heads[h], target) then h else FirstHead(heads, h + 1, target)
  }

  /** The first match in the tables at or after 'i'. */
  function SearchFrom(l: Layout, i: nat, target: Option<Minimatch>): (p: Option<Pos>)
    requires i <= |l|
    ensures p.Some? ==> At(l, p.value) && p.value.table >= i
    decreases |l| - i
  {
    if i == |l| then None
    else
      var k := if TableMatches(l[i], target) then FirstHead(l[i].heads, 0, target) else |l[i].heads|;
      if k < |l[i].heads| && l[i].heads[k] != [] then Some(Pos(i, k, 0)) else SearchFrom(l, i + 1, target)
  }

  /** next_rule_in_list__(): the list is circular. */
  function Following(n: nat, item: nat): nat {
    if item + 1 < n then item + 1 else 0
  }

  /** cls_cursor_next(): follows the circular list while the priority drops, then
      the hash map, then the remaining tables. */
  function Next(l: Layout, p: Pos, target: Option<Minimatch>): (q: Option<Pos>)
    requires At(l, p)
    ensures q.Some? ==> At(l, q.value)
  {
    var heads := l[p.table].heads;
    var list := heads[p.head];
    var next := Following(|list|, p.item);
    if list[next].priority < list[p.item].priority then Some(Pos(p.table, p.head, next))
    else
      var k := FirstHead(heads, p.head + 1, target);
      if k < |heads| && heads[k] != [] then Some(Pos(p.table, k, 0)) else SearchFrom(l, p.table + 1, target)
  }

  /** The walk that CLS_CURSOR_FOR_EACH makes, from 'p' on. */
  ghost function Walk(l: Layout, p: Option<Pos>, target: Option<Minimatch>): seq<Rule>
    requires LayoutOk(l) && (p.Some? ==> At(l, p.value))
    decreases if p.None? then 0 else 1 + |l| - p.value.table,
              if p.None? then 0 else |l[p.value.table].heads| - p.value.head,
              if p.None? then 0 else |l[p.value.table].heads[p.value.head]| - p.value.item
  {
    if p.None? then []
    else
      assert Descending(l[p.value.table].heads[p.value.head]);
      [l[p.value.table].heads[p.value.head][p.value.item]] + Walk(l, Next(l, p.value, target), target)
  }

  // --------------------------------------------- what should be visited

  ghost function Filter(s: seq<Rule>, keep: Rule -> bool): seq<Rule> {
    if s == [] then [] else (if keep(s[0]) then [s[0]] else []) + Filter(s[1..], keep)
  }

  ghost function HeadRules(heads: seq<seq<Rule>>): seq<Rule> {
    if heads == [] then [] else heads[0] + HeadRules(heads[1..])
  }

  ghost function LayoutRules(l: Layout): seq<Rule> {
    if l == [] then [] else HeadRules(l[0].heads) + LayoutRules(l[1..])
  }

  /** The iteration's promise: cls_rule_is_loose_match(), or every rule. */
  ghost function Wanted(target: Option<Minimatch>): Rule -> bool {
    (r: Rule) => target.None? || LooseMatch(r, target.value)
  }

  lemma {:induction false} FilterConcat(a: seq<Rule>, b: seq<Rule>, keep: Rule -> bool)
    ensures Filter(a + b, keep) == Filter(a, keep) + Filter(b, keep)
  {
    if a == [] {
      assert a + b == b;
    } else {
      assert (a + b)[0] == a[0] && (a + b)[1..] == a[1..] + b;
      FilterConcat(a[1..], b, keep);
      Regroup(if keep(a[0]) then [a[0]] else [], Filter(a[1..], keep), Filter(b, keep));
    }
  }

  lemma Regroup(a: seq<Rule>, b: seq<Rule>, c: seq<Rule>)
    ensures a + (b + c) == a + b + c
  {
  }

  lemma {:induction false} FilterAll(s: seq<Rule>, keep: Rule -> bool)
    ensures (forall r | r in s :: keep(r)) ==> Filter(s, keep) == s
    ensures (forall r | r in s :: !keep(r)) ==> Filter(s, keep) == []
  {
    if s != [] {
      FilterAll(s[1..], keep);
    }
  }

  /** A list is wanted as a whole or not at all. */
  lemma ListWanted(tv: TableView, h: nat, target: Option<Minimatch>)
    requires ViewOk(tv) && h < |tv.heads|
    ensures Filter(tv.heads[h], Wanted(target)) ==
            if TableMatches(tv, target) && HeadMatches(tv.heads[h], target) then tv.heads[h] else []
  {
    var list := tv.heads[h];
    assert list[0] in list;
    FilterAll(list, Wanted(target));
  }

  /** Scanning heads from 'h' skips only lists that are not wanted. */
  lemma {:induction false} FirstHeadSkips(tv: TableView, h: nat, target: Option<Minimatch>)
    requires ViewOk(tv) && h <= |tv.heads| && TableMatches(tv, target)
    ensures var k := FirstHead(tv.heads, h, target);
            && Filter(HeadRules(tv.heads[h..]), Wanted(target)) == Filter(HeadRules(tv.heads[k..]), Wanted(target))
            && (k < |tv.heads| ==> HeadMatches(tv.heads[k], target))
    decreases |tv.heads| - h
  {
    if h < |tv.heads| && !HeadMatches(tv.heads[h], target) {
      SkipHead(tv, h, target);
      FirstHeadSkips(tv, h + 1, target);
    }
  }

  lemma SkipHead(tv: TableView, h: nat, target: Option<Minimatch>)
    requires ViewOk(tv) && h < |tv.heads|
    requires !TableMatches(tv, target) || !HeadMatches(tv.heads[h], target)
    ensures Filter(HeadRules(tv.heads[h..]), Wanted(target)) == Filter(HeadRules(tv.heads[h + 1..]), Wanted(target))
  {
    assert tv.heads[h..][0] == tv.heads[h] && tv.heads[h..][1..] == tv.heads[h + 1..];
    ListWanted(tv, h, target);
    FilterConcat(tv.heads[h], HeadRules(tv.heads[h + 1..]), Wanted(target));
  }

  lemma {:induction false} UnwantedTable(tv: TableView, h: nat, target: Option<Minimatch>)
    requires ViewOk(tv) && h <= |tv.heads| && !TableMatches(tv, target)
    ensures Filter(HeadRules(tv.heads[h..]), Wanted(target)) == []
    decreases |tv.heads| - h
  {
    if h < |tv.heads| {
      SkipHead(tv, h, target);
      UnwantedTable(tv, h + 1, target);
    }
  }

  /** What is still to be visited from the hash map node 'h' of table 'i' on. */
  ghost function Rest(l: Layout, i: nat, h: nat, target: Option<Minimatch>): seq<Rule>
    requires i < |l| && h <= |l[i].heads|
  {
    Filter(HeadRules(l[i].heads[h..]), Wanted(target)) + Filter(LayoutRules(l[i + 1..]), Wanted(target))
  }

  lemma RestStep(l: Layout, i: nat, h: nat, target: Option<Minimatch>)
    requires LayoutOk(l) && i < |l| && h < |l[i].heads|
    requires TableMatches(l[i], target) && HeadMatches(l[i].heads[h], target)
    ensures Rest(l, i, h, target) == l[i].heads[h] + Rest(l, i, h + 1, target)
  {
    var heads := l[i].heads;
    assert heads[h..][1..] == heads[h + 1..];
    ListWanted(l[i], h, target);
    FilterConcat(heads[h], HeadRules(heads[h + 1..]), Wanted(target));
  }

  /** The search from table 'i' skips only what is not wanted and stops, if at all, at
      a list that is. */
  ghost predicate Skips(l: Layout, i: nat, p: Option<Pos>, target: Option<Minimatch>)
    requires i <= |l| && (p.Some? ==> At(l, p.value))
  {
    if p.None? then Filter(LayoutRules(l[i..]), Wanted(target)) == []
    else
      && p.value.item == 0
      && TableMatches(l[p.value.table], target)
      && HeadMatches(l[p.value.table].heads[p.value.head], target)
      && Filter(LayoutRules(l[i..]), Wanted(target)) == Rest(l, p.value.table, p.value.head, target)
  }

  lemma {:induction false} SearchFromSkips(l: Layout, i: nat, target: Option<Minimatch>)
    requires LayoutOk(l) && i <= |l|
    ensures Skips(l, i, SearchFrom(l, i, target), target)
    decreases |l| - i
  {
    if i < |l| {
      var k := FirstHead(l[i].heads, 0, target);
      if TableMatches(l[i], target) && k < |l[i].heads| {
        StopsHere(l, i, target);
      } else {
        NothingHere(l[i], target);
        SearchFromSkips(l, i + 1, target);
        GoesOn(l, i, SearchFrom(l, i + 1, target), target);
      }
    } else {
      assert l[i..] == [];
    }
  }

  lemma StopsHere(l: Layout, i: nat, target: Option<Minimatch>)
    requires LayoutOk(l) && i < |l| && TableMatches(l[i], target)
    requires FirstHead(l[i].heads, 0, target) < |l[i].heads|
    ensures var p := Some(Pos(i, FirstHead(l[i].heads, 0, target), 0));
            At(l, p.value) && SearchFrom(l, i, target) == p && Skips(l, i, p, target)
  {
    SplitTable(l, i, target);
    FirstHeadSkips(l[i], 0, target);
    assert ViewOk(l[i]);
  }

  lemma NothingHere(tv: TableView, target: Option<Minimatch>)
    requires ViewOk(tv)
    requires !TableMatches(tv, target) || FirstHead(tv.heads, 0, target) == |tv.heads|
    ensures Filter(HeadRules(tv.heads[0..]), Wanted(target)) == []
  {
    if TableMatches(tv, target) {
      FirstHeadSkips(tv, 0, target);
      assert tv.heads[|tv.heads|..] == [];
    } else {
      UnwantedTable(tv, 0, target);
    }
  }

  lemma GoesOn(l: Layout, i: nat, p: Option<Pos>, target: Option<Minimatch>)
    requires i < |l| && (p.Some? ==> At(l, p.value)) && Skips(l, i + 1, p, target)
    requires Filter(HeadRules(l[i].heads[0..]), Wanted(target)) == []
    ensures Skips(l, i, p, target)
  {
    SplitTable(l, i, target);
  }

  lemma SplitTable(l: Layout, i: nat, target: Option<Minimatch>)
    requires i < |l|
    ensures l[i].heads[0..] == l[i].heads
    ensures Filter(LayoutRules(l[i..]), Wanted(target)) ==
            Filter(HeadRules(l[i].heads[0..]), Wanted(target)) + Filter(LayoutRules(l[i + 1..]), Wanted(target))
  {
    assert l[i..][1..] == l[i + 1..] && l[i].heads[0..] == l[i].heads;
    FilterConcat(HeadRules(l[i].heads), LayoutRules(l[i + 1..]), Wanted(target));
  }

  /** Inside a list the cursor goes to the next rule; at its end, although the
      list is circular, it leaves the list. */
  lemma NextInList(l: Layout, p: Pos, target: Option<Minimatch>)
    requires LayoutOk(l) && At(l, p)
    ensures var heads := l[p.table].heads;
            var k := FirstHead(heads, p.head + 1, target);
            Next(l, p, target) ==
            if p.item + 1 < |heads[p.head]| then Some(Pos(p.table, p.head, p.item + 1))
            else if k < |heads| then Some(Pos(p.table, k, 0))
            else SearchFrom(l, p.table + 1, target)
  {
    assert Descending(l[p.table].heads[p.head]);
  }

  lemma WalkStep(l: Layout, p: Pos, target: Option<Minimatch>)
    requires LayoutOk(l) && At(l, p)
    ensures Walk(l, Some(p), target) ==
            [l[p.table].heads[p.head][p.item]] + Walk(l, Next(l, p, target), target)
  {
  }

  /** Where the cursor goes from the last rule of the list at node 'h'. */
  function AfterList(l: Layout, i: nat, h: nat, target: Option<Minimatch>): (q: Option<Pos>)
    requires i < |l| && h < |l[i].heads| && forall k | 0 <= k < |l[i].heads| :: l[i].heads[k] != []
    ensures q.Some? ==> At(l, q.value)
  {
    var k := FirstHead(l[i].heads, h + 1, target);
    if k < |l[i].heads| then Some(Pos(i, k, 0)) else SearchFrom(l, i + 1, target)
  }

  lemma {:induction false} WalkList(l: Layout, p: Pos, target: Option<Minimatch>)
    requires LayoutOk(l) && At(l, p)
    ensures Walk(l, Some(p), target) ==
            l[p.table].heads[p.head][p.item..] + Walk(l, AfterList(l, p.table, p.head, target), target)
    decreases |l[p.table].heads[p.head]| - p.item
  {
    WalkStep(l, p, target);
    NextInList(l, p, target);
    Cons(l[p.table].heads[p.head], p.item, Walk(l, AfterList(l, p.table, p.head, target), target));
    if p.item + 1 < |l[p.table].heads[p.head]| {
      WalkList(l, Pos(p.table, p.head, p.item + 1), target);
    }
  }

  lemma Cons(list: seq<Rule>, k: nat, rest: seq<Rule>)
    requires k < |list|
    ensures list[k..] + rest == [list[k]] + (list[k + 1..] + rest)
    ensures k + 1 == |list| ==> list[k..] + rest == [list[k]] + rest
  {
  }

  /** From a matching list, the walk visits exactly what is still wanted. */
  lemma {:induction false} WalkVisitsRest(l: Layout, i: nat, h: nat, target: Option<Minimatch>)
    requires LayoutOk(l) && i < |l| && h < |l[i].heads|
    requires TableMatches(l[i], target) && HeadMatches(l[i].heads[h], target)
    ensures Walk(l, Some(Pos(i, h, 0)), target) == Rest(l, i, h, target)
    decreases |l| - i, |l[i].heads| - h, 1
  {
    assert l[i].heads[h][0..] == l[i].heads[h];
    WalkList(l, Pos(i, h, 0), target);
    RestStep(l, i, h, target);
    WalkAfterList(l, i, h, target);
  }

  lemma {:induction false} WalkAfterList(l: Layout, i: nat, h: nat, target: Option<Minimatch>)
    requires LayoutOk(l) && i < |l| && h < |l[i].heads| && TableMatches(l[i], target)
    ensures Walk(l, AfterList(l, i, h, target), target) == Rest(l, i, h + 1, target)
    decreases |l| - i, |l[i].heads| - h, 0
  {
    RestSkips(l, i, h + 1, target);
    var k := FirstHead(l[i].heads, h + 1, target);
    if k < |l[i].heads| {
      WalkVisitsRest(l, i, k, target);
    } else {
      WalkFromSearch(l, i + 1, target);
    }
  }

  /** Nothing wanted lies between node 'h' and the next matching node. */
  lemma RestSkips(l: Layout, i: nat, h: nat, target: Option<Minimatch>)
    requires LayoutOk(l) && i < |l| && h <= |l[i].heads| && TableMatches(l[i], target)
    ensures var k := FirstHead(l[i].heads, h, target);
            && Rest(l, i, h, target) == Rest(l, i, k, target)
            && (k < |l[i].heads| ==> HeadMatches(l[i].heads[k], target))
            && (k == |l[i].heads| ==> Rest(l, i, h, target) == Filter(LayoutRules(l[i + 1..]), Wanted(target)))
  {
    assert ViewOk(l[i]);
    FirstHeadSkips(l[i], h, target);
    assert l[i].heads[|l[i].heads|..] == [];
  }

  lemma {:induction false} WalkFromSearch(l: Layout, i: nat, target: Option<Minimatch>)
    requires LayoutOk(l) && i <= |l|
    ensures Walk(l, SearchFrom(l, i, target), target) == Filter(LayoutRules(l[i..]), Wanted(target))
    decreases |l| - i
  {
    SearchFromSkips(l, i, target);
    var p := SearchFrom(l, i, target);
    if p.Some? {
      WalkVisitsRest(l, p.value.table, p.value.head, target);
    }
  }

  // ------------------------------------------------------- exactly once

  lemma {:induction false} HeadRulesOnce(tv: TableView, h: nat)
    requires ViewOk(tv) && h <= |tv.heads|
    ensures Distinct(HeadRules(tv.heads[h..]))
    ensures forall r | r in HeadRules(tv.heads[h..]) ::
              r.criteria.mask == tv.mask && exists g :: h <= g < |tv.heads| && r in tv.heads[g]
    decreases |tv.heads| - h
  {
    if h < |tv.heads| {
      var list := tv.heads[h];
      assert tv.heads[h..][1..] == tv.heads[h + 1..];
      HeadRulesOnce(tv, h + 1);
      forall r, g | h < g < |tv.heads| && r in tv.heads[g] ensures r !in list {
      }
      DistinctConcat(list, HeadRules(tv.heads[h + 1..]));
    }
  }

  lemma {:induction false} LayoutRulesOnce(l: Layout, i: nat)
    requires LayoutOk(l) && i <= |l|
    ensures Distinct(LayoutRules(l[i..]))
    ensures forall r | r in LayoutRules(l[i..]) :: exists j :: i <= j < |l| && l[j].mask == r.criteria.mask
    decreases |l| - i
  {
    if i < |l| {
      assert l[i..][1..] == l[i + 1..];
      assert l[i].heads[0..] == l[i].heads;
      LayoutRulesOnce(l, i + 1);
      HeadRulesOnce(l[i], 0);
      DistinctConcat(HeadRules(l[i].heads), LayoutRules(l[i + 1..]));
    }
  }

  lemma {:induction false} FilterMembers(s: seq<Rule>, keep: Rule -> bool)
    ensures forall r :: r in Filter(s, keep) <==> r in s && keep(r)
    ensures Distinct(s) ==> Distinct(Filter(s, keep))
  {
    if s != [] {
      FilterMembers(s[1..], keep);
      assert s == [s[0]] + s[1..];
      if Distinct(s) && keep(s[0]) {
        DistinctConcat([s[0]], Filter(s[1..], keep));
      }
    }
  }

  /** 'l' enumerates the rules of the index 'ts'. */
  ghost predicate Enumerates(l: Layout, ts: seq<Table>) {
    && LayoutOk(l)
    && (forall r :: r in LayoutRules(l) <==> r in AllRules(ts))
  }

  /** The cursor visits every rule that loosely matches the target exactly once
      and no other rule, whatever order the hash maps enumerate. */
  lemma CursorVisitsExactly(l: Layout, ts: seq<Table>, target: Option<Minimatch>)
    requires Enumerates(l, ts)
    ensures var visited := Walk(l, SearchFrom(l, 0, CursorTarget(target)), CursorTarget(target));
            && Distinct(visited)
            && (forall r :: r in visited <==> r in AllRules(ts) && (target.None? || LooseMatch(r, target.value)))
  {
    var t := CursorTarget(target);
    assert l[0..] == l;
    WalkFromSearch(l, 0, t);
    LayoutRulesOnce(l, 0);
    FilterMembers(LayoutRules(l), Wanted(t));
  }

  // -------------------------------------------------- the loops themselves

  /** search_table() and HMAP_FOR_EACH_CONTINUE over the nodes of one table. */
  method ScanHeads(heads: seq<seq<Rule>>, from: nat, target: Option<Minimatch>) returns (k: nat)
    requires from <= |heads|
    ensures k == FirstHead(heads, from, target)
  {
    k := from;
    while k < |heads| && !HeadMatches(heads[k], target)
      invariant from <= k <= |heads|
      invariant FirstHead(heads, from, target) == FirstHead(heads, k, target)
    {
      k := k + 1;
    }
  }

  /** cls_cursor_first() from table 0, and the table loop of cls_cursor_next(). */
  method ScanTables(l: Layout, from: nat, target: Option<Minimatch>) returns (p: Option<Pos>)
    requires LayoutOk(l) && from <= |l|
    ensures p == SearchFrom(l, from, target)
  {
    var i := from;
    while i < |l|
      invariant from <= i <= |l|
      invariant SearchFrom(l, from, target) == SearchFrom(l, i, target)
    {
      if TableMatches(l[i], target) {
        var k := ScanHeads(l[i].heads, 0, target);
        if k < |l[i].heads| {
          return Some(Pos(i, k, 0));
        }
      }
      i := i + 1;
    }
    return None;
  }

  /** cls_cursor_next(). */
  method CursorNext(l: Layout, p: Pos, target: Option<Minimatch>) returns (q: Option<Pos>)
    requires LayoutOk(l) && At(l, p)
    ensures q == Next(l, p, target)
  {
    var list := l[p.table].heads[p.head];
    var next := Following(|list|, p.item);
    if list[next].priority < list[p.item].priority {
      return Some(Pos(p.table, p.head, next));
    }
    var k := ScanHeads(l[p.table].heads, p.head + 1, target);
    if k < |l[p.table].heads| {
      return Some(Pos(p.table, k, 0));
    }
    q := ScanTables(l, p.table + 1, target);
  }

  /** CLS_CURSOR_FOR_EACH over the classifier that 'l' enumerates. */
  method ForEach(l: Layout, ghost ts: seq<Table>, target: Option<Minimatch>) returns (visited: seq<Rule>)
    requires Enumerates(l, ts)
    ensures Distinct(visited)
    ensures forall r :: r in visited <==> r in AllRules(ts) && (target.None? || LooseMatch(r, target.value))
  {
    var t := CursorTarget(target);
    visited := VisitFrom(l, t);
    CursorVisitsExactly(l, ts, target);
  }

  method VisitFrom(l: Layout, t: Option<Minimatch>) returns (visited: seq<Rule>)
    requires LayoutOk(l)
    ensures visited == Walk(l, SearchFrom(l, 0, t), t)
  {
    visited := [];
    var p := ScanTables(l, 0, t);
    ghost var all := Walk(l, p, t);
    while p.Some?
      invariant p.Some? ==> At(l, p.value)
      invariant all == visited + Walk(l, p, t)
      decreases |Walk(l, p, t)|
    {
      VisitStep(l, p.value, t, visited, all);
      visited := visited + [RuleAt(l, p.value)];
      p := CursorNext(l, p.value, t);
    }
    assert all == visited;
  }

  function RuleAt(l: Layout, p: Pos): Rule
    requires At(l, p)
  {
    l[p.table].heads[p.head][p.item]
  }

  lemma VisitStep(l: Layout, p: Pos, t: Option<Minimatch>, visited: seq<Rule>, all: seq<Rule>)
    requires LayoutOk(l) && At(l, p) && all == visited + Walk(l, Some(p), t)
    ensures var q := Next(l, p, t);
            && (q.Some? ==> At(l, q.value))
            && all == visited + [RuleAt(l, p)] + Walk(l, q, t) && |Walk(l, q, t)| < |Walk(l, Some(p), t)|
  {
    WalkStep(l, p, t);
    assert visited + ([RuleAt(l, p)] + Walk(l, Next(l, p, t), t)) == visited + [RuleAt(l, p)] + Walk(l, Next(l, p, t), t);
  }

  // -------------------------------------- every classifier can be enumerated

  /** The lists of the values 'done', each as one hash map node. */
  ghost predicate PartView(t: Table, heads: seq<seq<Rule>>, done: set<Bits>) {
    && ViewOk(TableView(t.mask, heads))
    && (forall h | 0 <= h < |heads| :: heads[h][0].criteria.value in done)
    && (forall r :: r in HeadRules(heads) <==>
          r.criteria.value in done && r.criteria.value in t.rules && r in t.rules[r.criteria.value])
  }

  lemma {:induction false} HeadRulesAppend(heads: seq<seq<Rule>>, list: seq<Rule>)
    ensures HeadRules(heads + [list]) == HeadRules(heads) + list
  {
    if heads == [] {
      assert heads + [list] == [list] && [list][1..] == [];
    } else {
      assert (heads + [list])[0] == heads[0] && (heads + [list])[1..] == heads[1..] + [list];
      HeadRulesAppend(heads[1..], list);
      Regroup(heads[0], HeadRules(heads[1..]), list);
    }
  }

  lemma ViewAppend(mask: Bits, heads: seq<seq<Rule>>, list: seq<Rule>, v: Bits)
    requires ViewOk(TableView(mask, heads)) && ListOk(mask, v, list)
    requires forall h | 0 <= h < |heads| :: heads[h] != [] && heads[h][0].criteria.value != v
    ensures list[0].criteria.value == v && ViewOk(TableView(mask, heads + [list]))
  {
    assert list[0] in list;
  }

  lemma PartViewAppend(t: Table, heads: seq<seq<Rule>>, done: set<Bits>, v: Bits)
    requires ListsOk(t) && PartView(t, heads, done) && v in t.rules && v !in done
    ensures PartView(t, heads + [t.rules[v]], done + {v})
  {
    ViewAppend(t.mask, heads, t.rules[v], v);
    HeadRulesAppend(heads, t.rules[v]);
  }

  /** Any order in which a hash map may enumerate its nodes is a view of the table. */
  method EnumerateTable(t: Table) returns (tv: TableView)
    requires ListsOk(t)
    ensures ViewOk(tv) && tv.mask == t.mask
    ensures forall r :: r in HeadRules(tv.heads) <==> r in TableRules(t)
  {
    var heads: seq<seq<Rule>> := [];
    var todo := t.rules.Keys;
    while todo != {}
      invariant todo <= t.rules.Keys
      invariant PartView(t, heads, t.rules.Keys - todo)
      decreases todo
    {
      var v :| v in todo;
      PartViewAppend(t, heads, t.rules.Keys - todo, v);
      heads := heads + [t.rules[v]];
      assert t.rules.Keys - (todo - {v}) == t.rules.Keys - todo + {v};
      todo := todo - {v};
    }
    tv := TableView(t.mask, heads);
    forall r ensures r in HeadRules(tv.heads) <==> r in TableRules(t) {
      PartViewRule(t, heads, r);
    }
  }

  lemma PartViewRule(t: Table, heads: seq<seq<Rule>>, r: Rule)
    requires ListsOk(t) && PartView(t, heads, t.rules.Keys)
    ensures r in HeadRules(heads) <==> r in TableRules(t)
  {
    RuleInTable(t, r);
    if r.criteria.value in t.rules && r in t.rules[r.criteria.value] {
      assert ListOk(t.mask, r.criteria.value, t.rules[r.criteria.value]);
    }
  }

  lemma {:induction false} LayoutRulesAppend(l: Layout, tv: TableView)
    ensures LayoutRules(l + [tv]) == LayoutRules(l) + HeadRules(tv.heads)
  {
    if l == [] {
      assert l + [tv] == [tv] && [tv][1..] == [];
    } else {
      assert (l + [tv])[0] == l[0] && (l + [tv])[1..] == l[1..] + [tv];
      LayoutRulesAppend(l[1..], tv);
      Regroup(HeadRules(l[0].heads), LayoutRules(l[1..]), HeadRules(tv.heads));
    }
  }

  /** 'l' enumerates the first tables of 'ts'. */
  ghost predicate PartLayout(ts: seq<Table>, l: Layout) {
    && |l| <= |ts| && Enumerates(l, ts[..|l|])
    && (forall i | 0 <= i < |l| :: l[i].mask == ts[i].mask)
  }

  lemma PartLayoutAppend(ts: seq<Table>, l: Layout, tv: TableView)
    requires PartLayout(ts, l) && |l| < |ts| && DistinctMasks(ts)
    requires ViewOk(tv) && tv.mask == ts[|l|].mask
    requires forall r :: r in HeadRules(tv.heads) <==> r in TableRules(ts[|l|])
    ensures PartLayout(ts, l + [tv])
  {
    LayoutRulesAppend(l, tv);
    AllRulesAppend(ts, |l|);
  }

  lemma AllRulesAppend(ts: seq<Table>, k: nat)
    requires k < |ts|
    ensures AllRules(ts[..k + 1]) == AllRules(ts[..k]) + TableRules(ts[k])
  {
    assert ts[..k + 1] == ts[..k] + [ts[k]];
    AllRulesConcat(ts[..k], [ts[k]]);
    assert [ts[k]][1..] == [];
  }

  /** CLS_CURSOR_FOR_EACH over any valid classifier. */
  method ForEachRule(ts: seq<Table>, ghost nRules: int, target: Option<Minimatch>) returns (visited: seq<Rule>)
    requires IndexOk(ts, nRules)
    ensures Distinct(visited)
    ensures forall r :: r in visited <==> r in AllRules(ts) && (target.None? || LooseMatch(r, target.value))
  {
    var l: Layout := [];
    while |l| < |ts|
      invariant PartLayout(ts, l)
    {
      assert ts[|l|] in ts;
      var tv := EnumerateTable(ts[|l|]);
      PartLayoutAppend(ts, l, tv);
      l := l + [tv];
    }
    assert ts[..|l|] == ts;
    visited := ForEach(l, ts, target);
  }
}
