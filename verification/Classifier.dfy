/**
  The flow classifier as an object (lib/classifier.c): its loops over lists and
  hash maps, proved against the rule set they stand for.
 */
module Classifier {
  import opened Collections
  import opened ClassifierModel
  import opened ClassifierUpdate

  /** struct classifier.  'tables' is the list tables_priority; the hash map of
      tables holds the same tables, keyed by mask. */
  class Classifier {
    const hash: Bits -> nat
    var tables: seq<Table>
    var nRules: int

    ghost predicate Valid()
      reads this
    {
      IndexOk(tables, nRules)
    }

    /** The plain set of rules this index stands for. */
    ghost function Rules(): set<Rule>
      reads this
    {
      AllRules(tables)
    }

    constructor (hash: Bits -> nat)
      ensures Valid() && Rules() == {} && this.hash == hash
    {
      this.hash := hash;
      tables := [];
      nRules := 0;
    }

    method FindTable(mask: Bits) returns (i: nat)
      ensures i <= |tables|
      ensures i < |tables| ==> tables[i].mask == mask
      ensures i == |tables| ==> forall t | t in tables :: t.mask != mask
    {
      i := 0;
      while i < |tables|
        invariant i <= |tables|
        invariant forall j | 0 <= j < i :: tables[j].mask != mask
      {
        if tables[i].mask == mask { return; }
        i := i + 1;
      }
    }

    /** find_match(): scans the heads whose stored hash equals the flow's, in no
        particular order. */
    method FindMatchHashed(t: Table, flow: Bits) returns (r: Option<Rule>)
      requires ListsOk(t)
      ensures r == FindMatch(t, flow)
    {
      var h := hash(flow * t.mask);
      var todo := t.rules.Keys;
      while todo != {}
        invariant todo <= t.rules.Keys
        invariant flow * t.mask in t.rules ==> flow * t.mask in todo
      {
        var v :| v in todo;
        var head := t.rules[v][0];
        assert head in t.rules[v];
        assert v * t.mask == v;
        if hash(head.criteria.value) == h && EqualIn(head.criteria.value, flow, t.mask) {
          return Some(head);
        }
        todo := todo - {v};
      }
      return None;
    }

    /** The two loops of classifier_lookup(). */
    method SearchTables(ts: seq<Table>, flow: Bits) returns (best: Option<Rule>, wc: Bits)
      requires forall t | t in ts :: ListsOk(t)
      ensures (best, wc) == Lookup(ts, flow)
    {
      best, wc := None, {};
      var i := 0;
      assert ts[0..] == ts && {} + Lookup(ts, flow).1 == Lookup(ts, flow).1;
      while i < |ts| && best.None?
        invariant i <= |ts|
        invariant Lookup(ts, flow) == Resume(ts[i..], flow, best, wc)
        decreases |ts| - i
      {
        assert ts[i] in ts;
        ResumeStep(ts, i, flow, best, wc);
        best := FindMatchHashed(ts[i], flow);
        wc := wc + ts[i].mask;
        i := i + 1;
      }
      if best.Some? {
        while i < |ts| && ts[i].maxPriority > best.value.priority
          invariant i <= |ts| && best.Some?
          invariant Lookup(ts, flow) == Resume(ts[i..], flow, best, wc)
        {
          assert ts[i] in ts;
          ResumeStep(ts, i, flow, best, wc);
          var rule := FindMatchHashed(ts[i], flow);
          wc := wc + ts[i].mask;
          if rule.Some? && rule.value.priority > best.value.priority {
            best := rule;
          }
          i := i + 1;
        }
      }
    }

    /** classifier_lookup().  'wc' is absent when the caller passes NULL. */
    method LookupFlow(flow: Bits, wc: Option<Bits>) returns (best: Option<Rule>, wc': Option<Bits>)
      requires Valid()
      ensures best == Lookup(tables, flow).0
      ensures wc' == match wc case None => None case Some(w) => Some(w + Lookup(tables, flow).1)
      ensures BestMatch(Rules(), flow, best)
    {
      var bits;
      best, bits := SearchTables(tables, flow);
      LookupIsBest(tables, flow);
      wc' := match wc case None => None case Some(w) => Some(w + bits);
    }

    /** classifier_find_rule_exactly(). */
    method FindRuleExactly(target: Rule) returns (r: Option<Rule>)
      requires Valid()
      ensures r.Some? ==> r.value in Rules() && SameKey(r.value, target)
      ensures r.None? ==> forall x | x in Rules() :: !SameKey(x, target)
    {
      var i := FindTable(target.criteria.mask);
      if i == |tables| {
        OtherMasks(tables, target.criteria.mask);
        return None;
      }
      var t := tables[i];
      assert t in tables;
      forall x: Rule | x.criteria == target.criteria
        ensures x in Rules() <==> x in ListFor(t, target.criteria.value)
        ensures x in Rules() ==> x.priority <= t.maxPriority
      {
        RuleInIndex(tables, i, x);
        RuleInTable(t, x);
      }
      if target.priority > t.maxPriority {
        return None;
      }
      r := FindInList(ListFor(t, target.criteria.value), target.priority);
    }

    /** The walk over one list of otherwise identical rules. */
    method FindInList(list: seq<Rule>, p: nat) returns (r: Option<Rule>)
      requires Descending(list)
      ensures r.Some? ==> r.value in list && r.value.priority == p
      ensures r.None? ==> forall x | x in list :: x.priority != p
    {
      var k := 0;
      while k < |list|
        invariant k <= |list|
        invariant forall j | 0 <= j < k :: list[j].priority > p
      {
        if p >= list[k].priority {
          return if p == list[k].priority then Some(list[k]) else None;
        }
        k := k + 1;
      }
      return None;
    }

    /** classifier_rule_overlaps(): no overlap is missed although tables and
        rules of lower priority are skipped. */
    method RuleOverlaps(target: Rule) returns (found: bool)
      requires Valid() && WellFormed(target)
      ensures found <==> Overlaps(Rules(), target)
    {
      var i := 0;
      while i < |tables| && target.priority <= tables[i].maxPriority
        invariant i <= |tables|
        invariant forall j | 0 <= j < i :: !Overlaps(TableRules(tables[j]), target)
      {
        assert tables[i] in tables;
        found := TableOverlaps(tables[i], target);
        if found {
          ghost var r :| r in TableRules(tables[i]) && Conflict(r, target);
          AllRulesMember(tables, r);
          return;
        }
        i := i + 1;
      }
      forall r | r in Rules() ensures !Conflict(r, target) {
        AllRulesMember(tables, r);
        var j :| 0 <= j < |tables| && r in TableRules(tables[j]);
        assert tables[j] in tables;
        assert j < i ==> !Overlaps(TableRules(tables[j]), target);
      }
      return false;
    }

    method TableOverlaps(t: Table, target: Rule) returns (found: bool)
      requires ListsOk(t) && WellFormed(target)
      ensures found <==> Overlaps(TableRules(t), target)
    {
      var todo := t.rules.Keys;
      while todo != {}
        invariant todo <= t.rules.Keys
        invariant forall v, r | v in t.rules && v !in todo && r in t.rules[v] :: !Conflict(r, target)
      {
        var v :| v in todo;
        found := ListOverlaps(t.mask, v, t.rules[v], target);
        if found {
          ConflictInTable(t, v, target);
          return;
        }
        todo := todo - {v};
      }
      return false;
    }

    /** The loop over one list, which stops where the priorities fall below the target's. */
    method ListOverlaps(mask: Bits, ghost v: Bits, list: seq<Rule>, target: Rule) returns (found: bool)
      requires v <= mask && ListOk(mask, v, list) && WellFormed(target)
      ensures found <==> exists r | r in list :: Conflict(r, target)
    {
      var k := 0;
      while k < |list| && list[k].priority >= target.priority
        invariant k <= |list|
        invariant forall j | 0 <= j < k :: !Conflict(list[j], target)
      {
        var r := list[k];
        assert r in list;
        OverlapIsCommonPacket(target, r);
        if r.priority == target.priority && EqualIn(target.criteria.value, r.criteria.value, target.criteria.mask * mask) {
          assert Conflict(r, target);
          return true;
        }
        k := k + 1;
      }
      forall j | k <= j < |list| ensures !Conflict(list[j], target) {
        assert Descending(list);
      }
      return false;
    }

    lemma ConflictInTable(t: Table, v: Bits, target: Rule)
      requires ListsOk(t) && v in t.rules && exists r | r in t.rules[v] :: Conflict(r, target)
      ensures Overlaps(TableRules(t), target)
    {
      var r :| r in t.rules[v] && Conflict(r, target);
      assert r in TableRules(t);
    }

    // -------------------------------------------------------------- updates

    /** The scan of insert_rule() for the place of a rule in its list. */
    method ScanList(list: seq<Rule>, p: nat) returns (k: nat)
      ensures k == InsertionPoint(list, p)
    {
      k := 0;
      while k < |list| && p < list[k].priority
        invariant k <= |list|
        invariant InsertionPoint(list, p) == k + InsertionPoint(list[k..], p)
      {
        k := k + 1;
      }
    }

    /** update_tables_after_insertion(): counts the new rule and moves the table
        ahead of the tables it now outranks.  'j' is where the table ends up. */
    method UpdateAfterInsertion(ts: seq<Table>, i: nat, p: nat) returns (ts': seq<Table>, j: nat)
      requires i < |ts| && PriorityOrder(ts)
      ensures j <= i
      ensures ts' == Place(Unlink(ts, i), j, CountInsertion(ts[i], p))
      ensures PriorityOrder(ts')
    {
      var t := ts[i];
      j := i;
      if p == t.maxPriority {
        t := t.(maxCount := t.maxCount + 1);
      } else if p > t.maxPriority {
        t := t.(maxPriority := p, maxCount := 1);
        while j > 0 && ts[j - 1].maxPriority < p
          invariant j <= i
          invariant forall m | j <= m < i :: ts[m].maxPriority < p
        {
          j := j - 1;
        }
      }
      MovedForward(ts, i, j, t);
      ts' := Place(Unlink(ts, i), j, t);
    }

    /** The rescan of update_tables_after_removal(), over the list heads only, in
        no particular order. */
    method RescanHeads(t: Table) returns (p: nat, n: int)
      requires ListsOk(t)
      ensures forall r | r in TableRules(t) :: r.priority <= p
      ensures n == |AtPriority(TableRules(t), p)|
      ensures t.rules != map[] ==> n > 0
    {
      p, n := 0, 0;
      var todo := t.rules.Keys;
      NoHeads(t);
      while todo != {}
        invariant todo <= t.rules.Keys
        invariant Scanned(t, todo, p, n)
      {
        var v :| v in todo;
        ScanHead(t, todo, v, p, n);
        p, n := RescanStep(p, n, t.rules[v][0].priority);
        todo := todo - {v};
      }
      AllScanned(t, p, n);
    }

    method RescanStep(p: nat, n: int, q: nat) returns (p': nat, n': int)
      ensures (p', n') == CountNext(p, n, q)
    {
      p', n' := p, n;
      if q > p {
        p', n' := q, 1;
      } else if q == p {
        n' := n + 1;
      }
    }

    /** The cache part of update_tables_after_removal(): discounts a removed rule
        of priority 'p', rescanning when the last rule of the top priority went. */
    method Discount(t: Table, p: nat) returns (u: Table)
      requires ListsOk(t) && t.rules != map[] && Discountable(t, TableRules(t), p)
      ensures u.mask == t.mask && u.rules == t.rules && TableOk(u)
      ensures u.maxPriority <= t.maxPriority
    {
      u := t;
      if p == t.maxPriority {
        u := t.(maxCount := t.maxCount - 1);
        if u.maxCount == 0 {
          var max, n := RescanHeads(t);
          TopIsReached(t, TableRules(t), max);
          u := t.(maxPriority := max, maxCount := n);
        }
      }
    }

    /** update_tables_after_removal(): discounts the removed rule and moves the
        table behind the tables that now outrank it. */
    method UpdateAfterRemoval(ts: seq<Table>, i: nat, p: nat) returns (ts': seq<Table>, ghost j: nat, ghost t: Table)
      requires i < |ts| && PriorityOrder(ts)
      requires ListsOk(ts[i]) && ts[i].rules != map[] && Discountable(ts[i], TableRules(ts[i]), p)
      ensures j < |ts| && ts' == Place(Unlink(ts, i), j, t)
      ensures t.mask == ts[i].mask && t.rules == ts[i].rules && TableOk(t)
      ensures PriorityOrder(ts')
    {
      var u := Discount(ts[i], p);
      var k := i + 1;
      if u.maxPriority < ts[i].maxPriority {
        while k < |ts| && ts[k].maxPriority > u.maxPriority
          invariant i < k <= |ts|
          invariant forall m | i < m < k :: ts[m].maxPriority > u.maxPriority
        {
          k := k + 1;
        }
      }
      MovedBack(ts, i, k, u);
      ts', j, t := Place(Unlink(ts, i), k - 1, u), k - 1, u;
    }

    /** find_table() or else insert_table(). */
    method TableFor(mask: Bits) returns (ts: seq<Table>, i: nat)
      requires Valid()
      ensures IndexBut(ts, nRules, i) && ts[i].mask == mask && AllRules(ts) == Rules()
    {
      ts := tables;
      i := FindTable(mask);
      if i == |ts| {
        EmptyTableAppended(ts, nRules, mask);
        ts := ts + [Table(mask, map[], 0, 0, 0)];
      } else {
        OkIsBut(ts, nRules, i);
      }
    }

    /** classifier_replace(): the rule set gains 'r' and loses exactly the rule
        with r's key, which is returned. */
    method Replace(r: Rule) returns (displaced: Option<Rule>)
      requires Valid() && WellFormed(r)
      modifies this
      ensures Valid()
      ensures match displaced
              case None =>
                (forall x | x in old(Rules()) :: !SameKey(x, r)) && Rules() == old(Rules()) + {r}
              case Some(d) =>
                d in old(Rules()) && SameKey(d, r) && Rules() == old(Rules()) - {d} + {r}
    {
      var ts, i := TableFor(r.criteria.mask);
      tables, displaced := InsertRule(ts, nRules, i, r);
      if displaced.None? {
        nRules := nRules + 1;
      }
    }

    /** insert_rule(), together with the table's own rule count. */
    method InsertRule(ts: seq<Table>, ghost nRules: int, i: nat, r: Rule)
      returns (ts': seq<Table>, displaced: Option<Rule>)
      requires IndexBut(ts, nRules, i) && WellFormed(r) && ts[i].mask == r.criteria.mask
      ensures IndexOk(ts', nRules + if displaced.None? then 1 else 0)
      ensures match displaced
              case None =>
                (forall x | x in AllRules(ts) :: !SameKey(x, r)) && AllRules(ts') == AllRules(ts) + {r}
              case Some(d) =>
                d in AllRules(ts) && SameKey(d, r) && AllRules(ts') == AllRules(ts) - {d} + {r}
    {
      var v := r.criteria.value;
      var t := ts[i];
      var list := ListFor(t, v);
      var k := ScanList(list, r.priority);
      if k < |list| && list[k].priority == r.priority {
        displaced := Some(list[k]);
        t := WithList(t, v, list[k := r]);
        Replaced(ts, nRules, i, r, t);
        ts' := ts[i := t];
      } else {
        displaced := None;
        NoSameKey(ts, nRules, i, r);
        t := WithList(t, v, list[..k] + [r] + list[k..]);
        PlaceSame(ts, i, t);
        SameOrder(ts, i, t);
        var j;
        ts', j := UpdateAfterInsertion(ts[i := t], i, r.priority);
        t := ts'[j].(nTableRules := ts'[j].nTableRules + 1);
        Overwrite(Unlink(ts, i), j, ts'[j], t);
        Added(ts, nRules, i, r, j, t);
        ts' := ts'[j := t];
      }
    }

    /** classifier_insert(): the rule must not be there already, so nothing is
        displaced and the assertion in the source never fires. */
    method Insert(r: Rule)
      requires Valid() && WellFormed(r) && forall x | x in Rules() :: !SameKey(x, r)
      modifies this
      ensures Valid() && Rules() == old(Rules()) + {r}
    {
      var displaced := Replace(r);
      assert displaced.None?;
    }

    /** classifier_remove(): the rule set loses exactly 'r'. */
    method Remove(r: Rule)
      requires Valid() && r in Rules()
      modifies this
      ensures Valid() && Rules() == old(Rules()) - {r}
    {
      var i := FindTable(r.criteria.mask);
      if i == |tables| {
        OtherMasks(tables, r.criteria.mask);
        assert false;
      } else {
        tables := RemoveRule(tables, nRules, i, r);
        nRules := nRules - 1;
      }
    }

    /** Unlinks 'r' from its list in table 'i'; an emptied table is destroyed. */
    method RemoveRule(ts: seq<Table>, ghost nRules: int, i: nat, r: Rule) returns (ts': seq<Table>)
      requires IndexOk(ts, nRules) && r in AllRules(ts)
      requires i < |ts| && ts[i].mask == r.criteria.mask
      ensures IndexOk(ts', nRules - 1) && AllRules(ts') == AllRules(ts) - {r}
    {
      var t, v := ts[i], r.criteria.value;
      assert TableOk(t) && r in TableRules(t) && v in t.rules && r in t.rules[v] by {
        assert t in ts;
        RuleInIndex(ts, i, r);
        RuleInTable(t, r);
      }
      var list := t.rules[v];
      var k :| 0 <= k < |list| && list[k] == r;
      UnlinkedTable(t, r, k);
      t := Unlinked(t, v, k);
      if t.nTableRules == 0 {
        DropTable(ts, nRules, i, r);
        ts' := Unlink(ts, i);
      } else {
        PlaceSame(ts, i, t);
        SameOrder(ts, i, t);
        ghost var j, u;
        ts', j, u := UpdateAfterRemoval(ts[i := t], i, r.priority);
        Removed(ts, nRules, i, r, j, u);
      }
    }
  }

  // ----------------------------------------------------------------- runs

  datatype Op = ReplaceOp(rule: Rule) | RemoveOp(rule: Rule) | LookupOp(flow: Bits)

  /** What an operation returns: a displaced or a found rule, and the bits that
      were significant. */
  datatype Answer = Answer(rule: Option<Rule>, wc: Bits)

  ghost function Apply(rules: set<Rule>, op: Op): set<Rule> {
    match op
    case ReplaceOp(r) => (set x | x in rules && !SameKey(x, r)) + {r}
    case RemoveOp(r) => rules - {r}
    case LookupOp(_) => rules
  }

  ghost function After(ops: seq<Op>): set<Rule> {
    if ops == [] then {} else Apply(After(ops[..|ops| - 1]), ops[|ops| - 1])
  }

  /** What the source demands of its callers. */
  ghost predicate Allowed(rules: set<Rule>, op: Op) {
    match op
    case ReplaceOp(r) => WellFormed(r)
    case RemoveOp(r) => r in rules
    case LookupOp(_) => true
  }

  ghost predicate AllAllowed(ops: seq<Op>) {
    forall i | 0 <= i < |ops| :: Allowed(After(ops[..i]), ops[i])
  }

  /** The answer to 'op' is the one a plain set of rules gives; a lookup's answer
      is the best match of every flow that agrees on the significant bits. */
  ghost predicate Correct(rules: set<Rule>, op: Op, a: Answer) {
    match op
    case ReplaceOp(r) =>
      (a.rule.Some? ==> a.rule.value in rules && SameKey(a.rule.value, r)) &&
      (a.rule.None? ==> forall x | x in rules :: !SameKey(x, r))
    case RemoveOp(_) => true
    case LookupOp(f) => forall g: Bits | EqualIn(f, g, a.wc) :: BestMatch(rules, g, a.rule)
  }

  method Step(c: Classifier, op: Op) returns (a: Answer)
    requires c.Valid() && Allowed(c.Rules(), op)
    modifies c
    ensures c.Valid() && c.Rules() == Apply(old(c.Rules()), op)
    ensures Correct(old(c.Rules()), op, a)
  {
    a := Answer(None, {});
    match op
    case ReplaceOp(r) =>
      ghost var (ts, n) := (c.tables, c.nRules);
      var displaced := c.Replace(r);
      a := Answer(displaced, {});
      ReplaceIsApply(ts, n, r, displaced);
    case RemoveOp(r) => c.Remove(r);
    case LookupOp(f) =>
      var best, wc := c.LookupFlow(f, Some({}));
      a := Answer(best, wc.value);
      forall g: Bits | EqualIn(f, g, a.wc) ensures BestMatch(c.Rules(), g, best) {
        CachedAnswerIsBest(c.tables, c.nRules, f, {}, g);
      }
  }

  lemma ReplaceIsApply(ts: seq<Table>, n: int, r: Rule, d: Option<Rule>)
    requires IndexOk(ts, n)
    requires d.Some? ==> d.value in AllRules(ts) && SameKey(d.value, r)
    requires d.None? ==> forall x | x in AllRules(ts) :: !SameKey(x, r)
    ensures Apply(AllRules(ts), ReplaceOp(r)) ==
            (match d case None => AllRules(ts) case Some(x) => AllRules(ts) - {x}) + {r}
  {
    if d.Some? {
      forall x | x in AllRules(ts) && SameKey(x, r) ensures x == d.value {
        KeysUnique(ts, n, x, d.value);
      }
    }
  }

  /** Every run of replaces, removes and lookups, from an empty classifier. */
  method Run(hash: Bits -> nat, ops: seq<Op>) returns (answers: seq<Answer>)
    requires AllAllowed(ops)
    ensures |answers| == |ops|
    ensures forall i | 0 <= i < |ops| :: Correct(After(ops[..i]), ops[i], answers[i])
  {
    var c := new Classifier(hash);
    answers := RunOn(c, ops);
  }

  method RunOn(c: Classifier, ops: seq<Op>) returns (answers: seq<Answer>)
    requires c.Valid() && c.Rules() == {} && AllAllowed(ops)
    modifies c
    ensures c.Valid() && c.Rules() == After(ops)
    ensures |answers| == |ops| && AnswersOk(ops, answers)
  {
    answers := [];
    while |answers| < |ops|
      invariant AnswersOk(ops, answers)
      invariant c.Valid() && c.Rules() == After(ops[..|answers|])
    {
      AfterNext(ops, |answers|);
      var a := Step(c, ops[|answers|]);
      AnswersGrow(ops, answers, a);
      answers := answers + [a];
    }
    assert ops[..|answers|] == ops;
  }

  ghost predicate AnswersOk(ops: seq<Op>, answers: seq<Answer>) {
    |answers| <= |ops| && forall i | 0 <= i < |answers| :: Correct(After(ops[..i]), ops[i], answers[i])
  }

  lemma AnswersGrow(ops: seq<Op>, answers: seq<Answer>, a: Answer)
    requires AnswersOk(ops, answers) && |answers| < |ops|
    requires Correct(After(ops[..|answers|]), ops[|answers|], a)
    ensures AnswersOk(ops, answers + [a])
  {
  }

  lemma AfterNext(ops: seq<Op>, i: nat)
    requires i < |ops|
    ensures After(ops[..i + 1]) == Apply(After(ops[..i]), ops[i])
  {
    assert ops[..i + 1][..i] == ops[..i];
  }
}
