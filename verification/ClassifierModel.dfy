/**
  Values and specification of the flow classifier (lib/classifier.c): rules,
  tables, the index invariant, and what lookup means over a plain set of rules.

  A flow is the set of its bit positions that are 1, and a mask is the set of
  bit positions it covers, so AND is intersection and OR is union.
 */
module ClassifierModel {
  import opened Collections

  type Bits = set<nat>

  /** struct minimatch: the bits to compare and the values they must have. */
  datatype Minimatch = Minimatch(value: Bits, mask: Bits)

  /** struct cls_rule.  'id' stands for the rule's address. */
  datatype Rule = Rule(id: nat, criteria: Minimatch, priority: nat)

  /** The struct match invariant: value bits are zero where the mask is zero. */
  predicate WellFormed(r: Rule) {
    r.criteria.value <= r.criteria.mask
  }

  /** Agreement of two flows on every bit of 'mask'. */
  predicate EqualIn(a: Bits, b: Bits, mask: Bits) {
    a * mask == b * mask
  }

  predicate Matches(r: Rule, flow: Bits) {
    EqualIn(r.criteria.value, flow, r.criteria.mask)
  }

  /** cls_rule_equal(): same wildcards, same values, same priority. */
  predicate SameKey(a: Rule, b: Rule) {
    a.priority == b.priority && a.criteria == b.criteria
  }

  /** 'b' has a bit that 'a' lacks. */
  predicate HasExtra(a: Bits, b: Bits) {
    !(b <= a)
  }

  /** cls_rule_is_loose_match(). */
  predicate LooseMatch(r: Rule, target: Minimatch) {
    && !HasExtra(r.criteria.mask, target.mask)
    && EqualIn(r.criteria.value, target.value, target.mask)
  }

  // ---------------------------------------------------------------- tables

  /** struct cls_table.  'rules' maps each fixed value to its list of otherwise
      identical rules; the first rule of a list is the one in the hash map. */
  datatype Table = Table(mask: Bits, rules: map<Bits, seq<Rule>>,
                         nTableRules: int, maxPriority: nat, maxCount: int)

  ghost predicate Descending(list: seq<Rule>) {
    forall i, j | 0 <= i < j < |list| :: list[i].priority > list[j].priority
  }

  ghost predicate ListOk(mask: Bits, v: Bits, list: seq<Rule>) {
    && list != []
    && Descending(list)
    && (forall r | r in list :: r.criteria == Minimatch(v, mask))
  }

  ghost predicate ListsIn(mask: Bits, lists: map<Bits, seq<Rule>>) {
    forall v | v in lists :: v <= mask && ListOk(mask, v, lists[v])
  }

  ghost predicate ListsOk(t: Table) {
    ListsIn(t.mask, t.rules)
  }

  ghost function RulesOf(lists: map<Bits, seq<Rule>>): set<Rule> {
    set v, r | v in lists && r in lists[v] :: r
  }

  ghost function TableRules(t: Table): set<Rule> {
    RulesOf(t.rules)
  }

  ghost function AtPriority(s: set<Rule>, p: nat): set<Rule> {
    set r | r in s && r.priority == p
  }

  /** The cached figures are exact over the rules 's'. */
  ghost predicate ExactOn(t: Table, s: set<Rule>) {
    && t.nTableRules == |s|
    && (forall r | r in s :: r.priority <= t.maxPriority)
    && t.maxCount == |AtPriority(s, t.maxPriority)|
    && (t.maxPriority > 0 ==> t.maxCount > 0)
  }

  ghost predicate CacheOk(t: Table) {
    ExactOn(t, TableRules(t))
  }

  ghost predicate TableOk(t: Table) {
    && ListsOk(t)
    && CacheOk(t)
    && t.rules != map[]
    && t.maxCount > 0
  }

  // ------------------------------------------------------------ classifier

  ghost function AllRules(ts: seq<Table>): set<Rule> {
    if ts == [] then {} else TableRules(ts[0]) + AllRules(ts[1..])
  }

  ghost predicate DistinctMasks(ts: seq<Table>) {
    forall i, j | 0 <= i < j < |ts| :: ts[i].mask != ts[j].mask
  }

  ghost predicate PriorityOrder(ts: seq<Table>) {
    forall i, j | 0 <= i < j < |ts| :: ts[i].maxPriority >= ts[j].maxPriority
  }

  /** The index invariant of struct classifier. */
  ghost predicate IndexOk(ts: seq<Table>, nRules: int) {
    && (forall t | t in ts :: TableOk(t))
    && DistinctMasks(ts)
    && PriorityOrder(ts)
    && nRules == |AllRules(ts)|
  }

  lemma RuleInTable(t: Table, r: Rule)
    requires ListsOk(t)
    ensures r in TableRules(t) <==>
            r.criteria.mask == t.mask && r.criteria.value in t.rules && r in t.rules[r.criteria.value]
  {
  }

  lemma {:induction false} AllRulesConcat(a: seq<Table>, b: seq<Table>)
    ensures AllRules(a + b) == AllRules(a) + AllRules(b)
  {
    if a == [] {
      assert a + b == b;
    } else {
      assert (a + b)[1..] == a[1..] + b;
      AllRulesConcat(a[1..], b);
    }
  }

  lemma {:induction false} AllRulesMember(ts: seq<Table>, r: Rule)
    ensures r in AllRules(ts) <==> exists i :: 0 <= i < |ts| && r in TableRules(ts[i])
  {
    if ts != [] {
      AllRulesMember(ts[1..], r);
      if i :| 0 <= i < |ts| && r in TableRules(ts[i]) {
        assert i > 0 ==> ts[1..][i - 1] == ts[i];
      }
    }
  }

  /** A rule sits in the table of its own mask, or nowhere. */
  lemma RuleInIndex(ts: seq<Table>, i: nat, r: Rule)
    requires i < |ts| && DistinctMasks(ts)
    requires forall t | t in ts :: ListsOk(t)
    requires r.criteria.mask == ts[i].mask
    ensures r in AllRules(ts) <==> r in TableRules(ts[i])
  {
    AllRulesMember(ts, r);
    if j :| 0 <= j < |ts| && r in TableRules(ts[j]) {
      RuleInTable(ts[j], r);
    }
  }

  /** No two rules of a valid index have the same key. */
  lemma KeysUnique(ts: seq<Table>, nRules: int, a: Rule, b: Rule)
    requires IndexOk(ts, nRules)
    requires a in AllRules(ts) && b in AllRules(ts) && SameKey(a, b)
    ensures a == b
  {
    AllRulesMember(ts, a);
    var i :| 0 <= i < |ts| && a in TableRules(ts[i]);
    assert ts[i] in ts;
    RuleInTable(ts[i], a);
    RuleInIndex(ts, i, b);
    RuleInTable(ts[i], b);
    assert Descending(ts[i].rules[a.criteria.value]);
  }

  // ---------------------------------------------------------------- lookup

  /** What find_match() returns: the head of the list for the flow's masked value. */
  function FindMatch(t: Table, flow: Bits): Option<Rule> {
    var key := flow * t.mask;
    if key in t.rules && t.rules[key] != [] then Some(t.rules[key][0]) else None
  }

  function Better(best: Rule, found: Option<Rule>): Rule {
    if found.Some? && found.value.priority > best.priority then found.value else best
  }

  /** The inner loop of classifier_lookup(), after some match 'best' is known. */
  function ImproveMatch(ts: seq<Table>, flow: Bits, best: Rule): (Rule, Bits) {
    if ts == [] || ts[0].maxPriority <= best.priority then (best, {})
    else
      var (r, wc) := ImproveMatch(ts[1..], flow, Better(best, FindMatch(ts[0], flow)));
      (r, ts[0].mask + wc)
  }

  /** classifier_lookup(): the rule chosen and the bits that were significant. */
  function Lookup(ts: seq<Table>, flow: Bits): (Option<Rule>, Bits) {
    if ts == [] then (None, {})
    else match FindMatch(ts[0], flow)
      case None =>
        var (r, wc) := Lookup(ts[1..], flow);
        (r, ts[0].mask + wc)
      case Some(best) =>
        var (r, wc) := ImproveMatch(ts[1..], flow, best);
        (Some(r), ts[0].mask + wc)
  }

  /** The answer of a lookup that has 'best' and 'wc' and the tables 'ts' to go. */
  function Resume(ts: seq<Table>, flow: Bits, best: Option<Rule>, wc: Bits): (Option<Rule>, Bits) {
    match best
    case None => var (r, more) := Lookup(ts, flow); (r, wc + more)
    case Some(b) => var (r, more) := ImproveMatch(ts, flow, b); (Some(r), wc + more)
  }

  lemma ResumeStep(ts: seq<Table>, i: nat, flow: Bits, best: Option<Rule>, wc: Bits)
    requires i < |ts|
    requires best.Some? ==> ts[i].maxPriority > best.value.priority
    ensures var found := FindMatch(ts[i], flow);
            var next := if best.Some? then Some(Better(best.value, found)) else found;
            Resume(ts[i..], flow, best, wc) == Resume(ts[i + 1..], flow, next, wc + ts[i].mask)
  {
    assert ts[i..][1..] == ts[i + 1..];
    var (found, rest) := (FindMatch(ts[i], flow), ts[i + 1..]);
    if best.Some? || found.Some? {
      var b := if best.Some? then Better(best.value, found) else found.value;
      var more := ImproveMatch(rest, flow, b).1;
      assert wc + (ts[i].mask + more) == (wc + ts[i].mask) + more;
    } else {
      var more := Lookup(rest, flow).1;
      assert wc + (ts[i].mask + more) == (wc + ts[i].mask) + more;
    }
  }

  /** The simple specification: a highest-priority rule among the matching rules
      of a set, or none exactly when no rule matches. */
  ghost predicate BestMatch(rules: set<Rule>, flow: Bits, r: Option<Rule>) {
    match r
    case None => forall x | x in rules :: !Matches(x, flow)
    case Some(b) =>
      && b in rules
      && Matches(b, flow)
      && forall x | x in rules && Matches(x, flow) :: x.priority <= b.priority
  }

  /** Hash-and-compare within one table is the best match over its rules. */
  lemma FindMatchIsBest(t: Table, flow: Bits)
    requires ListsOk(t)
    ensures BestMatch(TableRules(t), flow, FindMatch(t, flow))
  {
    var key := flow * t.mask;
    forall x | x in TableRules(t)
      ensures Matches(x, flow) <==> key in t.rules && x in t.rules[key]
    {
      RuleInTable(t, x);
      assert x.criteria.value <= t.mask;
      assert x.criteria.value * t.mask == x.criteria.value;
    }
    if key in t.rules {
      assert t.rules[key][0] in t.rules[key];
    }
  }

  /** The better of a known match and the best of 'here' stands for both. */
  lemma MergeBest(here: set<Rule>, rest: set<Rule>, flow: Bits, best: Rule, found: Option<Rule>, r: Rule)
    requires Matches(best, flow) && BestMatch(here, flow, found)
    requires BestMatch(rest + {Better(best, found)}, flow, Some(r))
    ensures BestMatch(here + rest + {best}, flow, Some(r))
  {
  }

  lemma {:induction false} PriorityBound(ts: seq<Table>, p: nat)
    requires forall t | t in ts :: CacheOk(t) && t.maxPriority <= p
    ensures forall r | r in AllRules(ts) :: r.priority <= p
  {
    if ts != [] {
      assert ts[0] in ts;
      PriorityBound(ts[1..], p);
    }
  }

  /** What lookup needs of the index. */
  ghost predicate Searchable(ts: seq<Table>) {
    && (forall t | t in ts :: ListsOk(t) && CacheOk(t))
    && PriorityOrder(ts)
  }

  lemma {:induction false} ImproveMatchIsBest(ts: seq<Table>, flow: Bits, best: Rule)
    requires Searchable(ts) && Matches(best, flow)
    ensures BestMatch(AllRules(ts) + {best}, flow, Some(ImproveMatch(ts, flow, best).0))
  {
    assert ts != [] ==> ts[0] in ts;
    if ts != [] && ts[0].maxPriority <= best.priority {
      PriorityBound(ts, best.priority);
    } else if ts != [] {
      var found := FindMatch(ts[0], flow);
      FindMatchIsBest(ts[0], flow);
      ImproveMatchIsBest(ts[1..], flow, Better(best, found));
      MergeBest(TableRules(ts[0]), AllRules(ts[1..]), flow, best, found, ImproveMatch(ts, flow, best).0);
    }
  }

  /** Lookup with its early exits refines the linear scan over all rules. */
  lemma {:induction false} LookupIsBest(ts: seq<Table>, flow: Bits)
    requires Searchable(ts)
    ensures BestMatch(AllRules(ts), flow, Lookup(ts, flow).0)
  {
    if ts != [] {
      assert ts[0] in ts;
      FindMatchIsBest(ts[0], flow);
      match FindMatch(ts[0], flow)
      case None =>
        LookupIsBest(ts[1..], flow);
      case Some(best) =>
        ImproveMatchIsBest(ts[1..], flow, best);
        MergeBest(TableRules(ts[0]), AllRules(ts[1..]), flow, best, Some(best), Lookup(ts, flow).0.value);
        assert TableRules(ts[0]) + AllRules(ts[1..]) + {best} == AllRules(ts);
    }
  }

  lemma AgreeOnSubset(f: Bits, g: Bits, small: Bits, large: Bits)
    requires small <= large && EqualIn(f, g, large)
    ensures EqualIn(f, g, small)
  {
    assert f * small == (f * large) * small;
    assert g * small == (g * large) * small;
  }

  lemma {:induction false} ImproveMatchWildcards(ts: seq<Table>, f: Bits, g: Bits, best: Rule)
    requires EqualIn(f, g, ImproveMatch(ts, f, best).1)
    ensures ImproveMatch(ts, g, best) == ImproveMatch(ts, f, best)
  {
    if ts != [] && ts[0].maxPriority > best.priority {
      var wc := ImproveMatch(ts, f, best).1;
      AgreeOnSubset(f, g, ts[0].mask, wc);
      var better := Better(best, FindMatch(ts[0], f));
      AgreeOnSubset(f, g, ImproveMatch(ts[1..], f, better).1, wc);
      ImproveMatchWildcards(ts[1..], f, g, better);
    }
  }

  /** A flow that agrees on the significant bits gets the same rule and the same
      significant bits, whatever the state of the tables. */
  lemma {:induction false} LookupWildcards(ts: seq<Table>, f: Bits, g: Bits)
    requires EqualIn(f, g, Lookup(ts, f).1)
    ensures Lookup(ts, g) == Lookup(ts, f)
  {
    if ts != [] {
      var wc := Lookup(ts, f).1;
      AgreeOnSubset(f, g, ts[0].mask, wc);
      match FindMatch(ts[0], f)
      case None =>
        AgreeOnSubset(f, g, Lookup(ts[1..], f).1, wc);
        LookupWildcards(ts[1..], f, g);
      case Some(best) =>
        AgreeOnSubset(f, g, ImproveMatch(ts[1..], f, best).1, wc);
        ImproveMatchWildcards(ts[1..], f, g, best);
    }
  }

  /** Caching the answer under the accumulated wildcards is sound: every flow
      the cached entry covers has the cached rule as its own best match in the
      plain rule set, however many tables the lookup skipped. */
  lemma CachedAnswerIsBest(ts: seq<Table>, nRules: int, f: Bits, wc0: Bits, g: Bits)
    requires IndexOk(ts, nRules)
    requires EqualIn(f, g, wc0 + Lookup(ts, f).1)
    ensures BestMatch(AllRules(ts), g, Lookup(ts, f).0)
    ensures Lookup(ts, g) == Lookup(ts, f)
  {
    AgreeOnSubset(f, g, Lookup(ts, f).1, wc0 + Lookup(ts, f).1);
    LookupWildcards(ts, f, g);
    LookupIsBest(ts, g);
  }

  // --------------------------------------------------------------- overlap

  /** Agreement on the intersection of the masks is a common matching packet. */
  lemma OverlapIsCommonPacket(a: Rule, b: Rule)
    requires WellFormed(a) && WellFormed(b)
    ensures EqualIn(a.criteria.value, b.criteria.value, a.criteria.mask * b.criteria.mask)
            <==> exists p: Bits :: Matches(a, p) && Matches(b, p)
  {
    var (av, am, bv, bm) := (a.criteria.value, a.criteria.mask, b.criteria.value, b.criteria.mask);
    if EqualIn(av, bv, am * bm) {
      var p := av + bv;
      forall x: nat
        ensures x in p * am <==> x in av * am
        ensures x in p * bm <==> x in bv * bm
      {
        assert x in av * (am * bm) <==> x in bv * (am * bm);
      }
      assert p * am == av * am;
      assert p * bm == bv * bm;
      assert Matches(a, p) && Matches(b, p);
    }
    if p: Bits :| Matches(a, p) && Matches(b, p) {
      var both := am * bm;
      assert av * both == (av * am) * bm == (p * am) * bm == (p * bm) * am == (bv * bm) * am == bv * both;
    }
  }

  /** Same priority, and some packet could match both rules. */
  ghost predicate Conflict(a: Rule, b: Rule) {
    a.priority == b.priority && exists p: Bits :: Matches(a, p) && Matches(b, p)
  }

  /** classifier_rule_overlaps() as a property of the rule set. */
  ghost predicate Overlaps(rules: set<Rule>, target: Rule) {
    exists r :: r in rules && Conflict(r, target)
  }
}
