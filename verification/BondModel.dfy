/**
  Values and specification of bond load balancing (lib/bond.c): hash entries,
  slaves, the load each slave carries, and the list sorted by load.
 */
module BondModel {
  import opened Collections

  type Id = nat

  /** BOND_MASK + 1 hash buckets. */
  const BUCKETS: nat := 256

  /** struct bond_entry. */
  datatype Entry = Entry(slave: Option<Id>, txBytes: nat)

  /** struct bond_slave; 'entries' lists hash buckets. */
  datatype Slave = Slave(enabled: bool, txBytes: nat, entries: seq<nat>)

  type Slaves = map<Id, Slave>

  // ---------------------------------------------------------------- loads

  function Share(e: Entry, s: Id): nat {
    if e.slave == Some(s) then e.txBytes else 0
  }

  /** The load of slave 's': the bytes of the hash entries assigned to it. */
  function Load(h: seq<Entry>, s: Id): nat {
    if h == [] then 0 else Load(h[..|h| - 1], s) + Share(h[|h| - 1], s)
  }

  /** The bytes of all entries that are assigned to some slave. */
  function Total(h: seq<Entry>): nat {
    if h == [] then 0 else Total(h[..|h| - 1]) + (if h[|h| - 1].slave.Some? then h[|h| - 1].txBytes else 0)
  }

  /** Overwriting one entry changes each load by the difference of its shares. */
  lemma {:induction false} LoadUpdate(h: seq<Entry>, e: nat, x: Entry, s: Id)
    requires e < |h|
    ensures Load(h[e := x], s) == Load(h, s) - Share(h[e], s) + Share(x, s)
    ensures Load(h, s) >= Share(h[e], s)
  {
    var n := |h| - 1;
    if e == n {
      assert h[e := x][..n] == h[..n];
    } else {
      assert h[e := x][..n] == h[..n][e := x];
      LoadUpdate(h[..n], e, x, s);
    }
  }

  lemma {:induction false} TotalUpdate(h: seq<Entry>, e: nat, x: Entry)
    requires e < |h| && x.txBytes == h[e].txBytes && x.slave.Some? == h[e].slave.Some?
    ensures Total(h[e := x]) == Total(h)
  {
    var n := |h| - 1;
    if e == n {
      assert h[e := x][..n] == h[..n];
    } else {
      assert h[e := x][..n] == h[..n][e := x];
      TotalUpdate(h[..n], e, x);
    }
  }

  /** No slave carries more than the total, so 64-bit counters that can hold the
      total never wrap. */
  lemma {:induction false} LoadWithinTotal(h: seq<Entry>, s: Id)
    ensures Load(h, s) <= Total(h)
  {
    if h != [] {
      LoadWithinTotal(h[..|h| - 1], s);
    }
  }

  // --------------------------------------------------------- moving load

  function MovedEntry(h: seq<Entry>, e: nat, dst: Id): seq<Entry>
    requires e < |h|
  {
    h[e := h[e].(slave := Some(dst))]
  }

  /** bond_shift_load() followed by unlinking the entry. */
  function MovedLoad(slaves: Slaves, e: nat, delta: nat, src: Id, dst: Id): Slaves
    requires src in slaves && dst in slaves && src != dst && slaves[src].txBytes >= delta
  {
    var (f, t) := (slaves[src], slaves[dst]);
    slaves[src := f.(txBytes := f.txBytes - delta, entries := Without(f.entries, e))]
          [dst := t.(txBytes := t.txBytes + delta)]
  }

  /** The books of a rebalancing run that started from 'h0' and has moved the
      entries 'moved': every load is the sum of its entries, listed entries have
      not moved, and a moved entry sits on an enabled slave. */
  ghost predicate SlaveBooks(h: seq<Entry>, moved: set<nat>, s: Id, slave: Slave) {
    && slave.txBytes == Load(h, s)
    && Distinct(slave.entries)
    && (forall e | e in slave.entries :: e < |h| && e !in moved && h[e].slave == Some(s))
  }

  ghost predicate EntryBooks(h0: seq<Entry>, h: seq<Entry>, slaves: Slaves, moved: set<nat>, i: nat)
    requires i < |h0| == |h|
  {
    && h[i].txBytes == h0[i].txBytes
    && (if i in moved then
          h0[i].slave.Some? && h[i].slave.Some? && h[i].slave.value in slaves && slaves[h[i].slave.value].enabled
        else h[i] == h0[i])
  }

  ghost predicate Books(h0: seq<Entry>, h: seq<Entry>, slaves: Slaves, moved: set<nat>) {
    && |h| == |h0|
    && (forall s | s in slaves :: SlaveBooks(h, moved, s, slaves[s]))
    && (forall i | 0 <= i < |h| :: EntryBooks(h0, h, slaves, moved, i))
    && (forall i | i in moved :: i < |h|)
    && Total(h) == Total(h0)
  }

  lemma SlaveBooksMove(h: seq<Entry>, moved: set<nat>, slaves: Slaves, e: nat, src: Id, dst: Id, s: Id)
    requires src in slaves && dst in slaves && src != dst && s in slaves
    requires SlaveBooks(h, moved, src, slaves[src]) && SlaveBooks(h, moved, s, slaves[s])
    requires e in slaves[src].entries
    ensures e < |h| && slaves[src].txBytes >= h[e].txBytes
    ensures SlaveBooks(MovedEntry(h, e, dst), moved + {e}, s, MovedLoad(slaves, e, h[e].txBytes, src, dst)[s])
  {
    LoadUpdate(h, e, h[e].(slave := Some(dst)), src);
    LoadUpdate(h, e, h[e].(slave := Some(dst)), s);
    WithoutContents(slaves[src].entries, e);
  }

  /** Shifting one listed entry to another enabled slave keeps the books. */
  lemma MoveKeepsBooks(h0: seq<Entry>, h: seq<Entry>, slaves: Slaves, moved: set<nat>, e: nat, src: Id, dst: Id)
    requires Books(h0, h, slaves, moved)
    requires src in slaves && dst in slaves && src != dst && slaves[dst].enabled
    requires e in slaves[src].entries
    ensures e < |h| && e !in moved && slaves[src].txBytes >= h[e].txBytes
    ensures Books(h0, MovedEntry(h, e, dst), MovedLoad(slaves, e, h[e].txBytes, src, dst), moved + {e})
  {
    assert SlaveBooks(h, moved, src, slaves[src]);
    SlaveBooksMove(h, moved, slaves, e, src, dst, src);
    var (h', slaves', moved') := (MovedEntry(h, e, dst), MovedLoad(slaves, e, h[e].txBytes, src, dst), moved + {e});
    forall s | s in slaves' ensures SlaveBooks(h', moved', s, slaves'[s]) {
      SlaveBooksMove(h, moved, slaves, e, src, dst, s);
    }
    assert EntryBooks(h0, h, slaves, moved, e);
    forall i | 0 <= i < |h| ensures EntryBooks(h0, h', slaves', moved', i) {
      assert EntryBooks(h0, h, slaves, moved, i);
    }
    TotalUpdate(h, e, h[e].(slave := Some(dst)));
  }

  // ------------------------------------------------- the list sorted by load

  ghost predicate Known(bals: seq<Id>, slaves: Slaves) {
    forall i | 0 <= i < |bals| :: bals[i] in slaves
  }

  /** Descending order of tx_bytes. */
  ghost predicate Sorted(bals: seq<Id>, slaves: Slaves)
    requires Known(bals, slaves)
  {
    forall i, j | 0 <= i < j < |bals| :: slaves[bals[i]].txBytes >= slaves[bals[j]].txBytes
  }

  /** The first position whose slave carries less than 'n' bytes. */
  function BalPosition(bals: seq<Id>, slaves: Slaves, n: nat): (k: nat)
    requires forall i | 0 <= i < |bals| :: bals[i] in slaves
    ensures k <= |bals|
    ensures forall i | 0 <= i < k :: slaves[bals[i]].txBytes >= n
    ensures k < |bals| ==> slaves[bals[k]].txBytes < n
  {
    if bals == [] || n > slaves[bals[0]].txBytes then 0 else 1 + BalPosition(bals[1..], slaves, n)
  }

  /** insert_bal(). */
  function InsertBal(bals: seq<Id>, slaves: Slaves, s: Id): seq<Id>
    requires s in slaves && forall i | 0 <= i < |bals| :: bals[i] in slaves
  {
    var k := BalPosition(bals, slaves, slaves[s].txBytes);
    bals[..k] + [s] + bals[k..]
  }

  lemma InsertBalMembers(bals: seq<Id>, slaves: Slaves, s: Id)
    requires s in slaves && Known(bals, slaves)
    ensures Known(InsertBal(bals, slaves, s), slaves)
    ensures |InsertBal(bals, slaves, s)| == |bals| + 1
    ensures forall x :: x in InsertBal(bals, slaves, s) <==> x == s || x in bals
  {
    var k := BalPosition(bals, slaves, slaves[s].txBytes);
    assert bals == bals[..k] + bals[k..];
  }

  lemma InsertBalAt(bals: seq<Id>, slaves: Slaves, s: Id, i: nat)
    requires s in slaves && Known(bals, slaves) && i <= |bals|
    ensures |InsertBal(bals, slaves, s)| == |bals| + 1
    ensures var k := BalPosition(bals, slaves, slaves[s].txBytes);
            InsertBal(bals, slaves, s)[i] == if i < k then bals[i] else if i == k then s else bals[i - 1]
  {
  }

  lemma InsertBalSorted(bals: seq<Id>, slaves: Slaves, s: Id)
    requires s in slaves && Known(bals, slaves)
    ensures Known(InsertBal(bals, slaves, s), slaves)
    ensures Sorted(bals, slaves) ==> Sorted(InsertBal(bals, slaves, s), slaves)
  {
    InsertBalMembers(bals, slaves, s);
    var out := InsertBal(bals, slaves, s);
    if Sorted(bals, slaves) {
      forall i, j | 0 <= i < j < |out| ensures slaves[out[i]].txBytes >= slaves[out[j]].txBytes {
        InsertBalAt(bals, slaves, s, i);
        InsertBalAt(bals, slaves, s, j);
      }
    }
  }

  lemma InsertBalDistinct(bals: seq<Id>, slaves: Slaves, s: Id)
    requires s in slaves && Known(bals, slaves) && Distinct(bals) && s !in bals
    ensures Distinct(InsertBal(bals, slaves, s))
  {
    var out := InsertBal(bals, slaves, s);
    forall i, j | 0 <= i < j < |out| ensures out[i] != out[j] {
      InsertBalAt(bals, slaves, s, i);
      InsertBalAt(bals, slaves, s, j);
    }
  }

  /** Where a slave goes in a list whose last slave may be out of place. */
  lemma {:induction false} PositionBeforeLast(mid: seq<Id>, last: Id, slaves: Slaves, n: nat)
    requires Known(mid, slaves) && last in slaves
    ensures Known(mid + [last], slaves)
    ensures BalPosition(mid + [last], slaves, n) ==
            if BalPosition(mid, slaves, n) == |mid| && n <= slaves[last].txBytes then |mid| + 1
            else BalPosition(mid, slaves, n)
  {
    if mid == [] {
      assert mid + [last] == [last] && [last][1..] == [];
    } else {
      assert (mid + [last])[0] == mid[0] && (mid + [last])[1..] == mid[1..] + [last];
      PositionBeforeLast(mid[1..], last, slaves, n);
    }
  }

  lemma InsertBeforeOrAfterLast(mid: seq<Id>, last: Id, slaves: Slaves, s: Id)
    requires Known(mid, slaves) && last in slaves && s in slaves
    ensures Known(mid + [last], slaves)
    ensures InsertBal(mid + [last], slaves, s) == InsertBal(mid, slaves, s) + [last]
         || (InsertBal(mid + [last], slaves, s) == mid + [last] + [s] && InsertBal(mid, slaves, s) == mid + [s])
  {
    var n := slaves[s].txBytes;
    PositionBeforeLast(mid, last, slaves, n);
    SpliceBeforeLast(mid, last, BalPosition(mid, slaves, n), s);
  }

  lemma SpliceBeforeLast(mid: seq<Id>, last: Id, k: nat, s: Id)
    requires k <= |mid|
    ensures var whole := mid + [last];
            && whole[..k] + [s] + whole[k..] == mid[..k] + [s] + mid[k..] + [last]
            && whole[..|mid| + 1] + [s] + whole[|mid| + 1..] == whole + [s]
            && mid[..|mid|] + [s] + mid[|mid|..] == mid + [s]
  {
    var whole := mid + [last];
    assert whole[..k] == mid[..k] && whole[k..] == mid[k..] + [last];
  }

  /** While the last slave's load is out of date, inserting another slave places
      it correctly among the rest: unlinking the last one shows a sorted list. */
  lemma InsertBesideStale(mid: seq<Id>, dst: Id, slaves: Slaves, src: Id)
    requires Known(mid, slaves) && src in slaves && dst in slaves && src != dst && dst !in mid
    ensures Without(InsertBal(mid + [dst], slaves, src), dst) == InsertBal(mid, slaves, src)
  {
    InsertBeforeOrAfterLast(mid, dst, slaves, src);
    InsertBalMembers(mid, slaves, src);
    WithoutAt(mid, dst, [src]);
    WithoutAt(InsertBal(mid, slaves, src), dst, []);
    assert InsertBal(mid, slaves, src) + [dst] + [] == InsertBal(mid, slaves, src) + [dst];
  }

  /** Both calls of reinsert_bal() after a shift from the front to the back. */
  function Resort(bals: seq<Id>, slaves: Slaves): seq<Id>
    requires |bals| >= 2 && forall i | 0 <= i < |bals| :: bals[i] in slaves
    requires var once := Without(InsertBal(bals[1..], slaves, bals[0]), bals[|bals| - 1]);
             forall i | 0 <= i < |once| :: once[i] in slaves
  {
    var (src, dst) := (bals[0], bals[|bals| - 1]);
    InsertBal(Without(InsertBal(bals[1..], slaves, src), dst), slaves, dst)
  }

  lemma ResortIs(bals: seq<Id>, slaves: Slaves)
    requires |bals| >= 2 && Known(bals, slaves) && Distinct(bals)
    ensures var mid := bals[1..|bals| - 1];
            && Known(InsertBal(mid, slaves, bals[0]), slaves)
            && Without(InsertBal(bals[1..], slaves, bals[0]), bals[|bals| - 1]) == InsertBal(mid, slaves, bals[0])
  {
    var n := |bals| - 1;
    var (src, mid, dst) := (bals[0], bals[1..n], bals[n]);
    assert bals[1..] == mid + [dst];
    InsertBesideStale(mid, dst, slaves, src);
    InsertBalMembers(mid, slaves, src);
  }

  lemma InsertTwice(mid: seq<Id>, slaves: Slaves, src: Id, dst: Id)
    requires Known(mid, slaves) && Distinct(mid) && src in slaves && dst in slaves
    requires src !in mid && dst !in mid && src != dst && Sorted(mid, slaves)
    ensures Known(InsertBal(mid, slaves, src), slaves)
    ensures var out := InsertBal(InsertBal(mid, slaves, src), slaves, dst);
            && Known(out, slaves) && Sorted(out, slaves) && Distinct(out)
            && |out| == |mid| + 2 && (forall x :: x in out <==> x == src || x == dst || x in mid)
  {
    InsertBalMembers(mid, slaves, src);
    InsertBalSorted(mid, slaves, src);
    InsertBalDistinct(mid, slaves, src);
    var once := InsertBal(mid, slaves, src);
    InsertBalMembers(once, slaves, dst);
    InsertBalSorted(once, slaves, dst);
    InsertBalDistinct(once, slaves, dst);
  }

  /** The list is sorted again although the two slaves whose loads changed were
      reinserted one at a time. */
  lemma ResortSorts(bals: seq<Id>, slaves: Slaves)
    requires |bals| >= 2 && Known(bals, slaves) && Distinct(bals)
    requires Sorted(bals[1..|bals| - 1], slaves)
    ensures Known(Without(InsertBal(bals[1..], slaves, bals[0]), bals[|bals| - 1]), slaves)
    ensures var out := Resort(bals, slaves);
            && Known(out, slaves) && Sorted(out, slaves) && Distinct(out)
            && |out| == |bals| && (forall x :: x in out <==> x in bals)
  {
    var n := |bals| - 1;
    ResortIs(bals, slaves);
    EndsApart(bals);
    InsertTwice(bals[1..n], slaves, bals[0], bals[n]);
    EndsAndMiddle(bals);
  }

  lemma EndsApart(bals: seq<Id>)
    requires |bals| >= 2 && Distinct(bals)
    ensures var n := |bals| - 1;
            && bals[0] != bals[n] && bals[0] !in bals[1..n] && bals[n] !in bals[1..n] && Distinct(bals[1..n])
  {
  }

  lemma EndsAndMiddle(bals: seq<Id>)
    requires |bals| >= 2
    ensures forall x :: x in bals <==> x == bals[0] || x == bals[|bals| - 1] || x in bals[1..|bals| - 1]
  {
    var n := |bals| - 1;
    assert bals == [bals[0]] + bals[1..n] + [bals[n]];
  }

  // ------------------------------------------------------ choice of entry

  function Abs(x: real): real {
    if x < 0.0 then -x else x
  }

  /** The test of choose_entry_to_migrate(): moving 'delta' from a slave with
      'src' bytes to one with 'dst' bytes lowers their ratio by more than 0.1 and
      brings it closer to 1. */
  predicate WorthMoving(src: nat, dst: nat, delta: nat)
    requires dst > 0 && delta <= src
  {
    var before := (src as real) / (dst as real);
    var after := ((src - delta) as real) / ((dst + delta) as real);
    before - after > 0.1 && Abs(after - 1.0) < Abs(before - 1.0)
  }

  /** The first listed entry that may move. */
  function FirstWorth(h: seq<Entry>, entries: seq<nat>, src: nat, dst: nat): Option<nat> {
    if entries == [] then None
    else
      var e := entries[0];
      if e < |h| && h[e].txBytes <= src && (dst == 0 || WorthMoving(src, dst, h[e].txBytes)) then Some(e)
      else FirstWorth(h, entries[1..], src, dst)
  }

  /** choose_entry_to_migrate(): a slave's only entry never moves. */
  function Chosen(h: seq<Entry>, from: Slave, dst: nat): Option<nat> {
    if |from.entries| <= 1 then None else FirstWorth(h, from.entries, from.txBytes, dst)
  }

  lemma {:induction false} FirstWorthMeans(h: seq<Entry>, entries: seq<nat>, src: nat, dst: nat)
    requires forall i | i in entries :: i < |h| && h[i].txBytes <= src
    ensures var r := FirstWorth(h, entries, src, dst);
            if r.Some? then r.value in entries && (dst == 0 || WorthMoving(src, dst, h[r.value].txBytes))
            else entries == [] || (dst > 0 && forall i | i in entries :: !WorthMoving(src, dst, h[i].txBytes))
    decreases |entries|
  {
    if entries != [] {
      assert entries[0] in entries && entries == [entries[0]] + entries[1..];
      FirstWorthMeans(h, entries[1..], src, dst);
    }
  }
}
