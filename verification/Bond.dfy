/**
  bond_rebalance() and its helpers (lib/bond.c), loop by loop.
 */
module Bond {
  import opened Collections
  import opened BondModel

  /** One call of bond_shift_load(). */
  datatype Move = Move(entry: nat, src: Id, dst: Id)

  /** The hash table after a sequence of shifts. */
  ghost function Replay(h: seq<Entry>, moves: seq<Move>): seq<Entry>
    requires forall m | m in moves :: m.entry < |h|
    ensures |Replay(h, moves)| == |h|
  {
    if moves == [] then h
    else MovedEntry(Replay(h, moves[..|moves| - 1]), moves[|moves| - 1].entry, moves[|moves| - 1].dst)
  }

  ghost function Entries(moves: seq<Move>): set<nat> {
    set m | m in moves :: m.entry
  }

  /** Each entry moves at most once, off the slave it was assigned to at the
      start, onto a different enabled slave. */
  ghost predicate FairMoves(h0: seq<Entry>, slaves: Slaves, moves: seq<Move>) {
    && (forall i, j | 0 <= i < j < |moves| :: moves[i].entry != moves[j].entry)
    && (forall m | m in moves ::
          && m.entry < |h0| && h0[m.entry].slave == Some(m.src) && m.src != m.dst
          && m.dst in slaves && slaves[m.dst].enabled)
  }

  /** No more moves than entries. */
  lemma {:induction false} MovesBounded(moved: set<nat>, n: nat)
    requires forall i | i in moved :: i < n
    ensures |moved| <= n
  {
    if n == 0 {
      assert moved == {};
    } else {
      MovesBounded(moved - {n - 1}, n - 1);
    }
  }

  /** The same slaves, still enabled or not as before. */
  ghost predicate SameSlaves(a: Slaves, b: Slaves) {
    a.Keys == b.Keys && forall s | s in a :: a[s].enabled == b[s].enabled
  }

  /** Fresh books: each slave lists its entries that carried traffic. */
  ghost predicate Listed(h: seq<Entry>, s: Id, slave: Slave) {
    forall i | 0 <= i < |h| :: i in slave.entries <==> h[i].slave == Some(s) && h[i].txBytes > 0
  }

  ghost predicate CollectedSlave(h: seq<Entry>, s: Id, slave: Slave) {
    SlaveBooks(h, {}, s, slave) && Listed(h, s, slave)
  }

  /** One entry's contribution to the slaves' loads and lists. */
  function CollectEntry(slaves: Slaves, e: Entry, n: nat): Slaves {
    if e.slave.Some? && e.slave.value in slaves && e.txBytes > 0 then
      var s := e.slave.value;
      slaves[s := slaves[s].(txBytes := slaves[s].txBytes + e.txBytes, entries := slaves[s].entries + [n])]
    else slaves
  }

  ghost predicate Collected(h: seq<Entry>, slaves: Slaves) {
    forall s | s in slaves :: CollectedSlave(h, s, slaves[s])
  }

  lemma CollectOne(h: seq<Entry>, n: nat, s: Id, slaves: Slaves)
    requires n < |h| && s in slaves && CollectedSlave(h[..n], s, slaves[s])
    ensures CollectedSlave(h[..n + 1], s, CollectEntry(slaves, h[n], n)[s])
  {
    assert h[..n + 1][..n] == h[..n];
    forall e | e in slaves[s].entries ensures e < n && h[e].slave == Some(s) {
      assert h[..n][e] == h[e];
    }
  }

  lemma CollectAll(h: seq<Entry>, n: nat, slaves: Slaves)
    requires n < |h| && Collected(h[..n], slaves)
    ensures Collected(h[..n + 1], CollectEntry(slaves, h[n], n))
    ensures SameSlaves(slaves, CollectEntry(slaves, h[n], n))
  {
    forall s | s in slaves ensures CollectedSlave(h[..n + 1], s, CollectEntry(slaves, h[n], n)[s]) {
      assert CollectedSlave(h[..n], s, slaves[s]);
      CollectOne(h, n, s, slaves);
    }
  }

  /** Adds the traffic of entry 'n' to its slave. */
  method CollectNext(h: seq<Entry>, n: nat, slaves: Slaves, sofar: Slaves) returns (out: Slaves)
    requires n < |h| && (h[n].slave.Some? ==> h[n].slave.value in slaves)
    requires SameSlaves(slaves, sofar) && Collected(h[..n], sofar)
    ensures SameSlaves(slaves, out) && Collected(h[..n + 1], out)
  {
    CollectAll(h, n, sofar);
    out := sofar;
    if h[n].slave.Some? && h[n].txBytes > 0 {
      var s := h[n].slave.value;
      out := out[s := out[s].(txBytes := out[s].txBytes + h[n].txBytes, entries := out[s].entries + [n])];
    }
    assert out == CollectEntry(sofar, h[n], n);
  }

  /** The first two loops of bond_rebalance(): every slave's load becomes the sum
      of its entries, and the entries that carry load are listed. */
  method CollectLoads(h: seq<Entry>, slaves: Slaves) returns (out: Slaves)
    requires forall i | 0 <= i < |h| :: h[i].slave.Some? ==> h[i].slave.value in slaves
    ensures SameSlaves(slaves, out) && Collected(h, out)
  {
    out := map s | s in slaves :: slaves[s].(txBytes := 0, entries := []);
    assert h[..0] == [];
    assert Collected([], out);
    var n := 0;
    while n < |h|
      invariant n <= |h| && SameSlaves(slaves, out) && Collected(h[..n], out)
    {
      out := CollectNext(h, n, slaves, out);
      n := n + 1;
    }
    assert h[..n] == h;
  }

  /** insert_bal(): the scan for the place of slave 's'. */
  method ScanBals(bals: seq<Id>, slaves: Slaves, s: Id) returns (out: seq<Id>)
    requires s in slaves && Known(bals, slaves)
    ensures out == InsertBal(bals, slaves, s)
  {
    var n := slaves[s].txBytes;
    var k := 0;
    while k < |bals| && slaves[bals[k]].txBytes >= n
      invariant k <= |bals|
      invariant BalPosition(bals, slaves, n) == k + BalPosition(bals[k..], slaves, n)
    {
      k := k + 1;
    }
    out := bals[..k] + [s] + bals[k..];
  }

  ghost predicate BalsOk(bals: seq<Id>, slaves: Slaves) {
    && Known(bals, slaves) && Sorted(bals, slaves) && Distinct(bals)
    && (forall i | 0 <= i < |bals| :: slaves[bals[i]].enabled)
  }

  /** The enabled slaves in descending order of load, whatever order the hash map
      enumerates them in. */
  method BuildBals(slaves: Slaves) returns (bals: seq<Id>)
    ensures BalsOk(bals, slaves)
    ensures forall s :: s in bals <==> s in slaves && slaves[s].enabled
  {
    bals := [];
    var todo := slaves.Keys;
    while todo != {}
      invariant todo <= slaves.Keys && BalsOk(bals, slaves)
      invariant forall s :: s in bals <==> s in slaves && s !in todo && slaves[s].enabled
    {
      var s :| s in todo;
      if slaves[s].enabled {
        InsertBalMembers(bals, slaves, s);
        InsertBalSorted(bals, slaves, s);
        InsertBalDistinct(bals, slaves, s);
        bals := ScanBals(bals, slaves, s);
        forall i | 0 <= i < |bals| ensures slaves[bals[i]].enabled {
          assert bals[i] in bals;
        }
      }
      todo := todo - {s};
    }
  }

  /** choose_entry_to_migrate(), with exact arithmetic for the ratios. */
  method ChooseEntry(h: seq<Entry>, src: Slave, dstBytes: nat) returns (e: Option<nat>)
    requires forall i | i in src.entries :: i < |h| && h[i].txBytes <= src.txBytes
    ensures e == Chosen(h, src, dstBytes)
    ensures e.Some? ==> |src.entries| > 1 && e.value in src.entries
                        && (dstBytes == 0 || WorthMoving(src.txBytes, dstBytes, h[e.value].txBytes))
    ensures e.None? ==> |src.entries| <= 1 || (dstBytes > 0 && forall i | i in src.entries ::
                          !WorthMoving(src.txBytes, dstBytes, h[i].txBytes))
  {
    FirstWorthMeans(h, src.entries, src.txBytes, dstBytes);
    if |src.entries| <= 1 {
      return None;
    }
    var k := 0;
    assert src.entries[0..] == src.entries;
    while k < |src.entries|
      invariant k <= |src.entries|
      invariant Chosen(h, src, dstBytes) == FirstWorth(h, src.entries[k..], src.txBytes, dstBytes)
    {
      var i := src.entries[k];
      assert i in src.entries && src.entries[k..][0] == i && src.entries[k..][1..] == src.entries[k + 1..];
      if dstBytes == 0 || WorthMoving(src.txBytes, dstBytes, h[i].txBytes) {
        return Some(i);
      }
      k := k + 1;
    }
    return None;
  }

  /** Not enough overload to bother: less than about 3% or 100000 bytes. */
  predicate CloseEnough(srcBytes: nat, dstBytes: nat) {
    var overload := srcBytes - dstBytes;
    overload < dstBytes / 32 || overload < 100000
  }

  /** Where a run that started from 'h0' and 'slaves0' stands after 'moves'. */
  ghost predicate RunInv(h0: seq<Entry>, slaves0: Slaves, h: seq<Entry>, slaves: Slaves, moves: seq<Move>) {
    && SameSlaves(slaves0, slaves)
    && FairMoves(h0, slaves, moves)
    && h == Replay(h0, moves)
    && Books(h0, h, slaves, Entries(moves))
    && |moves| <= |h0|
  }

  /** Where the loop stands: the hash table, the loads and the list. */
  datatype Balance = Balance(h: seq<Entry>, slaves: Slaves, bals: seq<Id>)

  ghost predicate BalanceOk(a: Balance) {
    BalsOk(a.bals, a.slaves)
  }

  /** The loop ends when at most one slave is left or the extremes are close. */
  ghost predicate Settled(a: Balance)
    requires BalanceOk(a)
  {
    |a.bals| <= 1 || CloseEnough(a.slaves[a.bals[0]].txBytes, a.slaves[a.bals[|a.bals| - 1]].txBytes)
  }

  /** One turn of the loop.  If an entry of the most loaded slave may move, it moves to the
      least loaded one and the list is sorted anew; otherwise that slave leaves the list. */
  ghost predicate Turn(a: Balance, b: Balance)
    requires BalanceOk(a) && |a.bals| > 1
  {
    var (src, dst) := (a.bals[0], a.bals[|a.bals| - 1]);
    match Chosen(a.h, a.slaves[src], a.slaves[dst].txBytes)
    case None => b == Balance(a.h, a.slaves, a.bals[1..])
    case Some(e) =>
      && e < |a.h| && src != dst && a.h[e].txBytes <= a.slaves[src].txBytes
      && b.h == MovedEntry(a.h, e, dst)
      && b.slaves == MovedLoad(a.slaves, e, a.h[e].txBytes, src, dst)
      && BalanceOk(b) && |b.bals| == |a.bals| && (forall s :: s in b.bals <==> s in a.bals)
  }

  /** 'trace' is the loop from its start, turn by turn. */
  ghost predicate Turns(trace: seq<Balance>) {
    && trace != []
    && (forall i | 0 <= i < |trace| :: BalanceOk(trace[i]))
    && (forall i | 0 <= i < |trace| - 1 :: !Settled(trace[i]) && Turn(trace[i], trace[i + 1]))
  }

  /** 'trace' leads from 'a' to 'b'. */
  ghost predicate Leads(trace: seq<Balance>, a: Balance, b: Balance) {
    Turns(trace) && trace[0] == a && trace[|trace| - 1] == b
  }

  lemma TurnsGrow(trace: seq<Balance>, a: Balance, b: Balance, c: Balance)
    requires Leads(trace, a, b) && BalanceOk(b) && BalanceOk(c) && |b.bals| > 1 && !Settled(b) && Turn(b, c)
    ensures Leads(trace + [c], a, c)
  {
    var t := trace + [c];
    forall i | 0 <= i < |t| - 1 ensures BalanceOk(t[i]) && !Settled(t[i]) && Turn(t[i], t[i + 1]) {
      assert t[i] == trace[i];
      if i < |trace| - 1 {
        assert t[i + 1] == trace[i + 1];
      }
    }
  }

  /** The loop that shifts load from the most to the least loaded slave.  Its
      subtractions never underflow, it conserves every load, and it ends. */
  method ShiftLoad(h0: seq<Entry>, slaves0: Slaves, bals0: seq<Id>)
    returns (h: seq<Entry>, slaves: Slaves, bals: seq<Id>, revalidate: bool, ghost moves: seq<Move>, ghost trace: seq<Balance>)
    requires Books(h0, h0, slaves0, {}) && BalsOk(bals0, slaves0)
    ensures RunInv(h0, slaves0, h, slaves, moves) && BalsOk(bals, slaves)
    ensures Leads(trace, Balance(h0, slaves0, bals0), Balance(h, slaves, bals)) && Settled(Balance(h, slaves, bals))
    ensures revalidate <==> moves != []
  {
    h, slaves, bals, revalidate, moves := h0, slaves0, bals0, false, [];
    trace := [Balance(h, slaves, bals)];
    assert Entries([]) == {};
    while |bals| > 1
      invariant RunInv(h0, slaves0, h, slaves, moves) && BalsOk(bals, slaves)
      invariant Leads(trace, Balance(h0, slaves0, bals0), Balance(h, slaves, bals))
      invariant revalidate <==> moves != []
      decreases |h0| - |moves| + |bals|
    {
      var src, dst := bals[0], bals[|bals| - 1];
      assert slaves[src].txBytes >= slaves[dst].txBytes;
      var overload := slaves[src].txBytes - slaves[dst].txBytes;
      if overload < slaves[dst].txBytes / 32 || overload < 100000 {
        return;
      }
      ghost var before := Balance(h, slaves, bals);
      var moved;
      h, slaves, bals, moved, moves := TakeTurn(h0, slaves0, h, slaves, bals, moves);
      revalidate := revalidate || moved;
      TurnsGrow(trace, Balance(h0, slaves0, bals0), before, Balance(h, slaves, bals));
      trace := trace + [Balance(h, slaves, bals)];
    }
  }

  /** The rest of the loop's body, once the overload is found to be worth the trouble. */
  method TakeTurn(ghost h0: seq<Entry>, ghost slaves0: Slaves, h: seq<Entry>, slaves: Slaves, bals: seq<Id>, ghost moves: seq<Move>)
    returns (h': seq<Entry>, slaves': Slaves, bals': seq<Id>, moved: bool, ghost moves': seq<Move>)
    requires RunInv(h0, slaves0, h, slaves, moves) && BalsOk(bals, slaves) && |bals| > 1
    ensures RunInv(h0, slaves0, h', slaves', moves') && BalsOk(bals', slaves')
    ensures Turn(Balance(h, slaves, bals), Balance(h', slaves', bals'))
    ensures if moved then |moves'| == |moves| + 1 && |bals'| == |bals| else moves' == moves && |bals'| == |bals| - 1
  {
    var src, dst := bals[0], bals[|bals| - 1];
    EntriesFit(h0, h, slaves, Entries(moves), src);
    var e := ChooseEntry(h, slaves[src], slaves[dst].txBytes);
    moved := e.Some?;
    if moved {
      ShiftStep(h0, slaves0, h, slaves, moves, e.value, src, dst);
      slaves' := MovedLoad(slaves, e.value, h[e.value].txBytes, src, dst);
      h' := MovedEntry(h, e.value, dst);
      moves' := moves + [Move(e.value, src, dst)];
      bals' := Reinsert(bals, slaves, slaves');
    } else {
      ShorterBals(bals, slaves);
      h', slaves', bals', moves' := h, slaves, bals[1..], moves;
    }
  }

  lemma ShorterBals(bals: seq<Id>, slaves: Slaves)
    requires bals != [] && BalsOk(bals, slaves)
    ensures BalsOk(bals[1..], slaves)
  {
  }

  lemma {:induction false} EntriesCount(moves: seq<Move>)
    requires forall i, j | 0 <= i < j < |moves| :: moves[i].entry != moves[j].entry
    ensures |Entries(moves)| == |moves|
  {
    if moves == [] {
      assert Entries(moves) == {};
    } else {
      var n := |moves| - 1;
      EntriesCount(moves[..n]);
      assert moves == moves[..n] + [moves[n]];
      assert Entries(moves) == Entries(moves[..n]) + {moves[n].entry};
    }
  }

  /** One shift keeps everything the run promises. */
  lemma ShiftStep(h0: seq<Entry>, slaves0: Slaves, h: seq<Entry>, slaves: Slaves, moves: seq<Move>,
                  e: nat, src: Id, dst: Id)
    requires RunInv(h0, slaves0, h, slaves, moves)
    requires src in slaves && dst in slaves && src != dst && slaves[dst].enabled && e in slaves[src].entries
    ensures e < |h| && slaves[src].txBytes >= h[e].txBytes
    ensures var slaves' := MovedLoad(slaves, e, h[e].txBytes, src, dst);
            && RunInv(h0, slaves0, MovedEntry(h, e, dst), slaves', moves + [Move(e, src, dst)])
            && SameSlaves(slaves, slaves')
            && (forall s | s in slaves && s != src && s != dst :: slaves'[s] == slaves[s])
  {
    var moved := Entries(moves);
    MoveKeepsBooks(h0, h, slaves, moved, e, src, dst);
    var slaves' := MovedLoad(slaves, e, h[e].txBytes, src, dst);
    MovedLoadFrame(slaves, e, h[e].txBytes, src, dst);
    MoveIsFair(h0, h, slaves, slaves', moves, moved, e, src, dst);
    FairCount(h0, slaves', moves + [Move(e, src, dst)]);
  }

  lemma MovedLoadFrame(slaves: Slaves, e: nat, delta: nat, src: Id, dst: Id)
    requires src in slaves && dst in slaves && src != dst && slaves[src].txBytes >= delta
    ensures var slaves' := MovedLoad(slaves, e, delta, src, dst);
            && SameSlaves(slaves, slaves')
            && (forall s | s in slaves && s != src && s != dst :: slaves'[s] == slaves[s])
  {
  }

  lemma FairCount(h0: seq<Entry>, slaves: Slaves, moves: seq<Move>)
    requires FairMoves(h0, slaves, moves)
    ensures |moves| <= |h0|
  {
    EntriesCount(moves);
    forall i | i in Entries(moves) ensures i < |h0| { }
    MovesBounded(Entries(moves), |h0|);
  }

  lemma EntriesFit(h0: seq<Entry>, h: seq<Entry>, slaves: Slaves, moved: set<nat>, src: Id)
    requires Books(h0, h, slaves, moved) && src in slaves
    ensures forall i | i in slaves[src].entries :: i < |h| && h[i].txBytes <= slaves[src].txBytes
  {
    assert SlaveBooks(h, moved, src, slaves[src]);
    forall i | i in slaves[src].entries ensures i < |h| && h[i].txBytes <= slaves[src].txBytes {
      LoadUpdate(h, i, h[i], src);
    }
  }

  lemma MoveIsFair(h0: seq<Entry>, h: seq<Entry>, slaves: Slaves, slaves': Slaves, moves: seq<Move>, moved: set<nat>,
                   e: nat, src: Id, dst: Id)
    requires Books(h0, h, slaves, moved) && moved == Entries(moves)
    requires FairMoves(h0, slaves, moves) && h == Replay(h0, moves) && SameSlaves(slaves, slaves')
    requires src in slaves && dst in slaves && src != dst && slaves[dst].enabled && e in slaves[src].entries
    ensures var moves' := moves + [Move(e, src, dst)];
            && FairMoves(h0, slaves', moves')
            && Entries(moves') == moved + {e}
            && e < |h| && Replay(h0, moves') == MovedEntry(h, e, dst)
  {
    var moves' := moves + [Move(e, src, dst)];
    assert SlaveBooks(h, moved, src, slaves[src]);
    assert EntryBooks(h0, h, slaves, moved, e);
    assert moves'[..|moves|] == moves;
    forall m | m in moves ensures m.entry in moved { }
    assert moves'[|moves|] in moves';
  }

  /** The two calls of reinsert_bal(). */
  method Reinsert(bals: seq<Id>, ghost before: Slaves, slaves: Slaves) returns (out: seq<Id>)
    requires |bals| >= 2 && BalsOk(bals, before) && SameSlaves(before, slaves)
    requires forall s | s in slaves && s != bals[0] && s != bals[|bals| - 1] :: slaves[s].txBytes == before[s].txBytes
    ensures BalsOk(out, slaves) && |out| == |bals|
    ensures forall s :: s in out <==> s in bals
  {
    var src, dst := bals[0], bals[|bals| - 1];
    ghost var mid := bals[1..|bals| - 1];
    forall i, j | 0 <= i < j < |mid| ensures slaves[mid[i]].txBytes >= slaves[mid[j]].txBytes {
      assert mid[i] == bals[i + 1] && mid[j] == bals[j + 1];
    }
    ResortSorts(bals, slaves);
    InsertBalMembers(bals[1..], slaves, src);
    out := ScanBals(bals[1..], slaves, src);
    out := Without(out, dst);
    out := ScanBals(out, slaves, dst);
    forall i | 0 <= i < |out| ensures slaves[out[i]].enabled {
      assert out[i] in bals;
    }
  }

  /** One step of the final loop: halve, and forget what has faded to nothing. */
  function Faded(e: Entry): Entry {
    if e.txBytes / 2 == 0 then Entry(None, 0) else e.(txBytes := e.txBytes / 2)
  }

  class Bond {
    var slaves: Slaves
    var hash: seq<Entry>
    var balanced: bool           // bond_is_balanced()
    var rebalanceInterval: int
    var nextRebalance: int
    var revalidate: bool

    ghost predicate Valid()
      reads this
    {
      |hash| == BUCKETS && AssignedWithin(hash, slaves)
    }

    /** bond_rebalance(), at time 'now'.  'moves' are the shifts it makes. */
    method Rebalance(now: int) returns (ghost moves: seq<Move>, ghost trace: seq<Balance>)
      requires Valid()
      modifies this`slaves, this`hash, this`nextRebalance, this`revalidate
      ensures Valid() && SameSlaves(old(slaves), slaves)
      ensures FairMoves(old(hash), slaves, moves)
      ensures !balanced || now < old(nextRebalance) ==>
                moves == [] && hash == old(hash) && slaves == old(slaves)
                && nextRebalance == old(nextRebalance) && revalidate == old(revalidate)
      ensures balanced && now >= old(nextRebalance) ==>
                && Conserved(old(hash), Replay(old(hash), moves), slaves)
                && FadedFrom(hash, Replay(old(hash), moves))
                && nextRebalance == now + rebalanceInterval
                && revalidate == (old(revalidate) || moves != [])
                && Loop(old(hash), Replay(old(hash), moves), slaves, trace)
    {
      moves, trace := [], [];
      if !balanced || now < nextRebalance {
        return;
      }
      nextRebalance := now + rebalanceInterval;
      var again;
      hash, slaves, again, moves, trace := BalanceLoads(hash, slaves);
      revalidate := revalidate || again;
    }
  }

  /** The total is unchanged and each load is the sum of its slave's entries. */
  ghost predicate Conserved(h0: seq<Entry>, h: seq<Entry>, slaves: Slaves) {
    Total(h) == Total(h0) && forall s | s in slaves :: slaves[s].txBytes == Load(h, s)
  }

  /** 'trace' is a whole loop: from the loads that are the sums of the entries of 'h0', with
      exactly the enabled slaves on the list, to 'h' and 'slaves', where it has settled. */
  ghost predicate Loop(h0: seq<Entry>, h: seq<Entry>, slaves: Slaves, trace: seq<Balance>) {
    && Turns(trace) && trace[0].h == h0 && Collected(h0, trace[0].slaves) && SameSlaves(trace[0].slaves, slaves)
    && (forall s :: s in trace[0].bals <==> s in slaves && slaves[s].enabled)
    && trace[|trace| - 1].h == h && trace[|trace| - 1].slaves == slaves && Settled(trace[|trace| - 1])
  }

  ghost predicate FadedFrom(out: seq<Entry>, h: seq<Entry>) {
    |out| == |h| && forall i | 0 <= i < |h| :: out[i] == Faded(h[i])
  }

  ghost predicate AssignedWithin(h: seq<Entry>, slaves: Slaves) {
    forall i | 0 <= i < |h| :: h[i].slave.Some? ==> h[i].slave.value in slaves
  }

  /** The loops of bond_rebalance() in turn. */
  method BalanceLoads(h0: seq<Entry>, slaves0: Slaves)
    returns (h: seq<Entry>, slaves: Slaves, revalidate: bool, ghost moves: seq<Move>, ghost trace: seq<Balance>)
    requires AssignedWithin(h0, slaves0)
    ensures AssignedWithin(h, slaves) && SameSlaves(slaves0, slaves)
    ensures FairMoves(h0, slaves, moves)
    ensures Conserved(h0, Replay(h0, moves), slaves) && FadedFrom(h, Replay(h0, moves))
    ensures Loop(h0, Replay(h0, moves), slaves, trace)
    ensures revalidate <==> moves != []
  {
    slaves := CollectLoads(h0, slaves0);
    FreshBooks(h0, slaves);
    var bals := BuildBals(slaves);
    ghost var collected := slaves;
    h, slaves, bals, revalidate, moves, trace := ShiftLoad(h0, slaves, bals);
    RunMeans(h0, collected, h, slaves, moves);
    h := Fade(h);
  }

  lemma RunMeans(h0: seq<Entry>, slaves0: Slaves, h: seq<Entry>, slaves: Slaves, moves: seq<Move>)
    requires RunInv(h0, slaves0, h, slaves, moves) && AssignedWithin(h0, slaves0)
    ensures Conserved(h0, Replay(h0, moves), slaves) && AssignedWithin(h, slaves)
  {
    var moved := Entries(moves);
    forall s | s in slaves ensures slaves[s].txBytes == Load(h, s) {
      assert SlaveBooks(h, moved, s, slaves[s]);
    }
    forall i | 0 <= i < |h| ensures h[i].slave.Some? ==> h[i].slave.value in slaves {
      assert EntryBooks(h0, h, slaves, moved, i);
    }
  }

  lemma FreshBooks(h: seq<Entry>, slaves: Slaves)
    requires Collected(h, slaves)
    ensures Books(h, h, slaves, {})
  {
    forall s | s in slaves ensures SlaveBooks(h, {}, s, slaves[s]) {
      assert CollectedSlave(h, s, slaves[s]);
    }
  }

  /** The final loop: an exponentially weighted moving average. */
  method Fade(h: seq<Entry>) returns (out: seq<Entry>)
    ensures |out| == |h| && forall i | 0 <= i < |h| :: out[i] == Faded(h[i])
  {
    out := h;
    var i := 0;
    while i < |h|
      invariant i <= |h| == |out|
      invariant forall j | 0 <= j < i :: out[j] == Faded(h[j])
      invariant forall j | i <= j < |h| :: out[j] == h[j]
    {
      out := out[i := out[i].(txBytes := out[i].txBytes / 2)];
      if out[i].txBytes == 0 {
        out := out[i := out[i].(slave := None)];
      }
      i := i + 1;
    }
  }

  // ------------------------------------------------------ the highest load

  /** A turn that moves an entry leaves the highest load on the list no higher exactly when
      the entry is no larger than the overload. */
  lemma TurnLowersPeakExactly(a: Balance, b: Balance, e: nat)
    requires BalanceOk(a) && |a.bals| > 1 && Turn(a, b) && BalanceOk(b) && b.bals != []
    requires Chosen(a.h, a.slaves[a.bals[0]], a.slaves[a.bals[|a.bals| - 1]].txBytes) == Some(e) && e < |a.h|
    ensures b.slaves[b.bals[0]].txBytes <= a.slaves[a.bals[0]].txBytes <==>
            a.h[e].txBytes <= a.slaves[a.bals[0]].txBytes - a.slaves[a.bals[|a.bals| - 1]].txBytes
  {
    var (src, dst) := (a.bals[0], a.bals[|a.bals| - 1]);
    var top := b.bals[0];
    assert dst in b.bals && top in a.bals;
    var k :| 0 <= k < |b.bals| && b.bals[k] == dst;
    assert b.slaves[top].txBytes >= b.slaves[dst].txBytes;
    var m :| 0 <= m < |a.bals| && a.bals[m] == top;
    assert a.slaves[top].txBytes <= a.slaves[src].txBytes;
  }

  /** Two slaves: 'one' with entries of 950000 bytes and of 1 byte, 'two' with one of
      95000 bytes. */
  ghost predicate Lopsided(a: Balance, one: Id, two: Id) {
    && BalanceOk(a) && one != two && a.bals == [one, two] && one in a.slaves && two in a.slaves
    && |a.h| >= 3 && a.h[0].txBytes == 950000 && a.h[1].txBytes == 1 && a.h[2].txBytes == 95000
    && a.slaves[one].txBytes == 950001 && a.slaves[one].entries == [0, 1]
    && a.slaves[two].txBytes == 95000 && a.slaves[two].entries == [2]
  }

  lemma BigEntryMoves(a: Balance, one: Id, two: Id)
    requires Lopsided(a, one, two)
    ensures !Settled(a) && Chosen(a.h, a.slaves[one], a.slaves[two].txBytes) == Some(0)
  {
    assert WorthMoving(950001, 95000, 950000);
  }

  /** The ratio test accepts entries that are larger than the overload: in every whole loop
      that starts like this, the highest load rises from 950001 to 1045000. */
  lemma PeakRises(trace: seq<Balance>, one: Id, two: Id)
    requires Turns(trace) && Lopsided(trace[0], one, two) && Settled(trace[|trace| - 1])
    ensures trace[0].slaves[trace[0].bals[0]].txBytes == 950001
    ensures two in trace[|trace| - 1].slaves && trace[|trace| - 1].slaves[two].txBytes == 1045000
  {
    var a := trace[0];
    BigEntryMoves(a, one, two);
    assert |trace| > 1 && Turn(a, trace[1]);
    var b := trace[1];
    AfterBigEntry(a, b, one, two);
    assert |trace| > 2 && Turn(b, trace[2]);
    assert trace[2].bals == [one];
    assert |trace| == 3;
  }

  lemma AfterBigEntry(a: Balance, b: Balance, one: Id, two: Id)
    requires Lopsided(a, one, two) && Turn(a, b) && BalanceOk(b)
    ensures b.bals == [two, one] && one in b.slaves && two in b.slaves
    ensures b.slaves[one].txBytes == 1 && b.slaves[two].txBytes == 1045000 && b.slaves[two].entries == [2]
    ensures !Settled(b) && Chosen(b.h, b.slaves[two], b.slaves[one].txBytes) == None
  {
    BigEntryMoves(a, one, two);
    assert one in b.bals && two in b.bals && |b.bals| == 2;
  }
}
