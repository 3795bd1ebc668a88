/**
  The circular byte queue (lib/byteq.c): a power-of-two buffer with head and tail
  counters that run freely in 32 bits.
 */
module Byteq {

  newtype Byte = x: int | 0 <= x < 256

  const U32: int := 0x1_0000_0000

  // ----------------------------------------------------- powers of two

  predicate IsPow2(n: nat) {
    n == 1 || (n > 1 && n % 2 == 0 && IsPow2(n / 2))
  }

  lemma {:induction false} Pow2Divides(n: nat, m: nat)
    requires IsPow2(n) && IsPow2(m) && n <= m
    ensures m % n == 0
    decreases m
  {
    if n == m {
    } else if n > 1 {
      Pow2Divides(n / 2, m / 2);
      var k := (m / 2) / (n / 2);
      assert m / 2 == k * (n / 2);
      assert m == k * n;
      Multiple(k, n);
    }
  }

  lemma Multiple(k: int, n: int)
    requires n > 0
    ensures (k * n) % n == 0
  {
    ModIs(k * n, n, k, 0);
  }

  lemma AtLeastOnce(d: int, n: int)
    requires d >= 1 && n > 0
    ensures d * n >= n
  {
    assert (d - 1) * n >= 0;
  }

  lemma DivisionUnique(n: int, q: int, r: int, q': int, r': int)
    requires q * n + r == q' * n + r' && 0 <= r < n && 0 <= r' < n
    ensures q == q' && r == r'
  {
    assert (q - q') * n == q * n - q' * n;
    if q > q' {
      AtLeastOnce(q - q', n);
    } else if q < q' {
      assert (q' - q) * n == q' * n - q * n;
      AtLeastOnce(q' - q, n);
    }
  }

  lemma ModIs(a: int, n: int, q: int, r: int)
    requires n > 0 && a == q * n + r && 0 <= r < n
    ensures a % n == r && a / n == q
  {
    DivisionUnique(n, q, r, a / n, a % n);
  }

  lemma ModPlus(a: int, k: int, n: int)
    requires n > 0
    ensures (a + k * n) % n == a % n
  {
    var (q, r) := (a / n, a % n);
    assert a + k * n == (q + k) * n + r;
    ModIs(a + k * n, n, q + k, r);
  }

  lemma Double(n: nat)
    requires IsPow2(n)
    ensures IsPow2(2 * n)
  {
    assert 2 * n / 2 == n;
  }

  lemma Times16(n: nat)
    requires IsPow2(n)
    ensures IsPow2(16 * n)
  {
    Double(n);
    Double(2 * n);
    Double(4 * n);
    Double(8 * n);
  }

  lemma Pow2Million()
    ensures IsPow2(0x10_0000)
  {
    Times16(1);
    Times16(0x10);
    Times16(0x100);
    Times16(0x1000);
    Times16(0x1_0000);
  }

  lemma Pow2U32()
    ensures IsPow2(U32)
  {
    Pow2Million();
    Times16(0x10_0000);
    Times16(0x100_0000);
    Times16(0x1000_0000);
  }

  // ------------------------------------------------ positions in the buffer

  /** The buffer position of a counter value, x & (n - 1) for a power of two n,
      by counting round the ring; SlotIsMod gives it as a remainder. */
  function Slot(x: int, n: nat): (r: nat)
    requires n > 0
    ensures r < n
    decreases if x < 0 then 1 - x else if x >= n then x else 0
  {
    if x < 0 then Slot(x + n, n) else if x < n then x else Slot(x - n, n)
  }

  lemma {:induction false} SlotIsMod(x: int, n: nat)
    requires n > 0
    ensures Slot(x, n) == x % n
    decreases if x < 0 then 1 - x else if x >= n then x else 0
  {
    if x < 0 {
      SlotIsMod(x + n, n);
      ModPlus(x, 1, n);
    } else if x >= n {
      SlotIsMod(x - n, n);
      ModPlus(x, -1, n);
    } else {
      ModIs(x, n, 0, x);
    }
  }

  lemma SlotPeriod(x: int, n: nat)
    requires n > 0
    ensures Slot(x + n, n) == Slot(x, n)
  {
  }

  lemma {:induction false} SlotPeriods(x: int, c: int, n: nat)
    requires n > 0
    ensures Slot(x + c * n, n) == Slot(x, n)
    decreases if c < 0 then -c else c
  {
    if c > 0 {
      assert x + c * n == (x + (c - 1) * n) + n;
      SlotPeriod(x + (c - 1) * n, n);
      SlotPeriods(x, c - 1, n);
    } else if c < 0 {
      assert x + (c + 1) * n == (x + c * n) + n;
      SlotPeriod(x + c * n, n);
      SlotPeriods(x, c + 1, n);
    }
  }

  /** Counters may wrap at 2^32 without disturbing the position in the buffer. */
  lemma SlotWrap(x: int, i: int, n: nat)
    requires IsPow2(n) && n <= U32
    ensures Slot(x % U32 + i, n) == Slot(x + i, n)
  {
    Pow2U32();
    Pow2Divides(n, U32);
    var (k, q) := (U32 / n, x / U32);
    assert U32 == k * n;
    assert x == x % U32 + (q * k) * n by {
      assert q * U32 == q * (k * n) == (q * k) * n;
    }
    SlotPeriods(x % U32 + i, q * k, n);
  }

  /** Positions less than one buffer apart are different. */
  lemma {:induction false} SlotDistinct(x: int, d: nat, n: nat)
    requires 0 < d < n
    ensures Slot(x, n) != Slot(x + d, n)
    decreases if x < 0 then 1 - x else if x >= n then x else 0
  {
    if x < 0 {
      SlotDistinct(x + n, d, n);
      SlotPeriod(x + d, n);
    } else if x >= n {
      SlotDistinct(x - n, d, n);
      SlotPeriod(x - n + d, n);
    }
  }

  /** Positions up to the end of the buffer are contiguous. */
  lemma {:induction false} SlotContiguous(x: int, j: nat, n: nat)
    requires n > 0 && Slot(x, n) + j < n
    ensures Slot(x + j, n) == Slot(x, n) + j
    decreases if x < 0 then 1 - x else if x >= n then x else 0
  {
    if x < 0 {
      SlotContiguous(x + n, j, n);
      SlotPeriod(x + j, n);
    } else if x >= n {
      SlotContiguous(x - n, j, n);
      SlotPeriod(x - n + j, n);
    }
  }

  /** The fill level between two free-running counters. */
  function Level(head: int, tail: int): nat {
    (head - tail) % U32
  }

  lemma ModUnique(x: int, q: int, r: int)
    requires x == q * U32 + r && 0 <= r < U32
    ensures x % U32 == r
  {
  }

  lemma LevelMoves(head: int, tail: int, k: nat)
    ensures Level(head, tail) + k < U32 ==> Level((head + k) % U32, tail) == Level(head, tail) + k
    ensures k <= Level(head, tail) ==> Level(head, (tail + k) % U32) == Level(head, tail) - k
  {
    var q := (head - tail) / U32;
    if Level(head, tail) + k < U32 {
      ModUnique((head + k) % U32 - tail, q - (head + k) / U32, Level(head, tail) + k);
    }
    if k <= Level(head, tail) {
      ModUnique(head - (tail + k) % U32, q + (tail + k) / U32, Level(head, tail) - k);
    }
  }

  /** A uint32_t returned as a C int. */
  function AsInt(x: int): int
    requires 0 <= x < U32
  {
    if x < 0x8000_0000 then x else x - U32
  }

  /** Every fill level of a queue can be reported as a C int exactly for sizes up
      to 2^30: the next power of two already overflows when the queue is full. */
  lemma FillLevelFitsExactly(size: nat)
    requires IsPow2(size) && size < U32
    ensures (forall n: nat | n <= size :: AsInt(n) == n) <==> size <= 0x4000_0000
  {
    if size > 0x4000_0000 {
      Pow2Between(size);
      assert AsInt(size) != size;
    }
  }

  lemma Pow2Between(n: nat)
    requires IsPow2(n) && n > 0x4000_0000
    ensures n >= 0x8000_0000
  {
    Pow2Million();
    Times16(0x10_0000);
    Times16(0x100_0000);
    Double(0x1000_0000);
    Double(0x2000_0000);
    Pow2Gap(n, 0x4000_0000);
  }

  /** The next power of two is at least twice as large. */
  lemma {:induction false} Pow2Gap(n: nat, m: nat)
    requires IsPow2(n) && IsPow2(m) && n > m
    ensures n >= 2 * m
    decreases m
  {
    if m > 1 {
      Pow2Gap(n / 2, m / 2);
    }
  }

  // ------------------------------------------------------------ the ring

  /** The 'n' bytes of the ring 's' that start at counter value 't'. */
  function Ring(s: seq<Byte>, t: int, n: nat): (r: seq<Byte>)
    requires |s| > 0
    ensures |r| == n
    ensures forall i | 0 <= i < n :: r[i] == s[Slot(t + i, |s|)]
  {
    seq(n, i requires 0 <= i < n => s[Slot(t + i, |s|)])
  }

  /** Taking bytes off the tail. */
  lemma RingDrop(s: seq<Byte>, t: int, n: nat, k: nat)
    requires IsPow2(|s|) && |s| <= U32 && k <= n
    ensures Ring(s, (t + k) % U32, n - k) == Ring(s, t, n)[k..]
  {
    var r := Ring(s, (t + k) % U32, n - k);
    forall i | 0 <= i < n - k ensures r[i] == Ring(s, t, n)[k + i] {
      SlotWrap(t + k, i, |s|);
      assert t + k + i == t + (k + i);
    }
  }

  /** 's' with the bytes 'p' stored from index 'at' on. */
  function Stored(s: seq<Byte>, at: nat, p: seq<Byte>): seq<Byte>
    requires at + |p| <= |s|
  {
    s[..at] + p + s[at + |p|..]
  }

  lemma StoredElsewhere(s: seq<Byte>, at: nat, p: seq<Byte>, k: nat)
    requires at + |p| <= |s| && k < |s| && (k < at || k >= at + |p|)
    ensures Stored(s, at, p)[k] == s[k]
  {
  }

  /** A byte in use does not lie where new bytes are stored. */
  lemma SlotsApart(t: int, i: nat, n: nat, k: nat, size: nat)
    requires size > 0 && i < n && n + k <= size && Slot(t + n, size) + k <= size
    ensures var at := Slot(t + n, size); Slot(t + i, size) < at || Slot(t + i, size) >= at + k
  {
    var (at, x) := (Slot(t + n, size), Slot(t + i, size));
    if at <= x < at + k {
      SlotContiguous(t + n, x - at, size);
      SlotDistinct(t + i, n + (x - at) - i, size);
    }
  }

  /** Storing after the last byte in use keeps those bytes and appends the new
      ones, wherever the ring happens to wrap. */
  lemma RingStore(s: seq<Byte>, t: int, n: nat, p: seq<Byte>)
    requires |s| > 0 && n + |p| <= |s| && Slot(t + n, |s|) + |p| <= |s|
    ensures Ring(Stored(s, Slot(t + n, |s|), p), t, n + |p|) == Ring(s, t, n) + p
  {
    var at := Slot(t + n, |s|);
    var s' := Stored(s, at, p);
    var r := Ring(s', t, n + |p|);
    forall i | 0 <= i < n ensures r[i] == Ring(s, t, n)[i] {
      SlotsApart(t, i, n, |p|, |s|);
      StoredElsewhere(s, at, p, Slot(t + i, |s|));
    }
    forall j | 0 <= j < |p| ensures r[n + j] == p[j] {
      assert t + (n + j) == t + n + j;
      SlotContiguous(t + n, j, |s|);
      assert s'[at + j] == p[j];
    }
  }

  /** Before the head moves, the stored bytes are there but not yet in use. */
  lemma StoreBeyond(s: seq<Byte>, t: int, n: nat, p: seq<Byte>)
    requires |s| > 0 && n + |p| <= |s| && Slot(t + n, |s|) + |p| <= |s|
    ensures var (at, s') := (Slot(t + n, |s|), Stored(s, Slot(t + n, |s|), p));
            Ring(s', t, n) == Ring(s, t, n) && s'[at..at + |p|] == p
  {
    RingStore(s, t, n, p);
    var s' := Stored(s, Slot(t + n, |s|), p);
    assert Ring(s', t, n) == Ring(s', t, n + |p|)[..n];
  }

  lemma StoreSame(s: seq<Byte>, at: nat, n: nat)
    requires at + n <= |s|
    ensures Stored(s, at, s[at..at + n]) == s
  {
  }

  /** The bytes at the tail, up to the end of the buffer, are contiguous. */
  lemma RingFront(s: seq<Byte>, t: int, n: nat, k: nat)
    requires |s| > 0 && k <= n && Slot(t, |s|) + k <= |s|
    ensures s[Slot(t, |s|)..Slot(t, |s|) + k] == Ring(s, t, n)[..k]
  {
    forall j | 0 <= j < k ensures s[Slot(t, |s|) + j] == Ring(s, t, n)[j] {
      SlotContiguous(t, j, |s|);
    }
  }

  /** The counters of a queue whose buffer holds 'size' bytes. */
  ghost predicate CountersOk(head: int, tail: int, size: nat) {
    && IsPow2(size) && size <= 0x4000_0000
    && 0 <= head < U32 && 0 <= tail < U32 && Level(head, tail) <= size
  }

  /** The head is where the byte after the last one in use goes. */
  lemma HeadFollows(head: int, tail: int, size: nat)
    requires CountersOk(head, tail, size)
    ensures Slot(head, size) == Slot(tail + Level(head, tail), size)
  {
    var n := Level(head, tail);
    ModUnique(tail + n, (tail + n - head) / U32, head);
    SlotWrap(tail + n, 0, size);
  }

  /** Advancing the head takes in the bytes that lie there. */
  lemma HeadAdvances(s: seq<Byte>, head: int, tail: int, k: nat)
    requires CountersOk(head, tail, |s|) && Level(head, tail) + k <= |s| && Slot(head, |s|) + k <= |s|
    ensures var (n, h) := (Level(head, tail), Slot(head, |s|));
            && Level((head + k) % U32, tail) == n + k
            && Ring(s, tail, n + k) == Ring(s, tail, n) + s[h..h + k]
  {
    var (n, h) := (Level(head, tail), Slot(head, |s|));
    LevelMoves(head, tail, k);
    HeadFollows(head, tail, |s|);
    RingStore(s, tail, n, s[h..h + k]);
    StoreSame(s, h, k);
  }

  /** Storing bytes at the head leaves those in use alone. */
  lemma StoreAtHead(s: seq<Byte>, head: int, tail: int, p: seq<Byte>)
    requires CountersOk(head, tail, |s|) && Level(head, tail) + |p| <= |s| && Slot(head, |s|) + |p| <= |s|
    ensures var (n, h) := (Level(head, tail), Slot(head, |s|));
            && Ring(Stored(s, h, p), tail, n) == Ring(s, tail, n)
            && Stored(s, h, p)[h..h + |p|] == p
  {
    HeadFollows(head, tail, |s|);
    StoreBeyond(s, tail, Level(head, tail), p);
  }

  // ------------------------------------------------------------ the queue

  class Byteq {
    const buffer: array<Byte>
    var head: int
    var tail: int

    ghost predicate Valid()
      reads this
    {
      CountersOk(head, tail, buffer.Length)
    }

    /** The bytes in the queue, oldest first. */
    ghost function Contents(): seq<Byte>
      reads this, buffer
      requires Valid()
    {
      Ring(buffer[..], tail, Level(head, tail))
    }

    /** byteq_init(). */
    constructor (buffer: array<Byte>)
      requires IsPow2(buffer.Length) && buffer.Length <= 0x4000_0000
      ensures Valid() && Contents() == [] && this.buffer == buffer
    {
      this.buffer := buffer;
      head, tail := 0, 0;
    }

    /** byteq_used(). */
    function Used(): (n: nat)
      reads this, buffer
      requires Valid()
      ensures n == |Contents()|
    {
      AsInt(Level(head, tail))
    }

    /** byteq_avail(). */
    function Avail(): (n: nat)
      reads this, buffer
      requires Valid()
      ensures n == buffer.Length - |Contents()|
    {
      buffer.Length - Used()
    }

    /** byteq_headroom(): contiguous free space at the head. */
    function Headroom(): (n: nat)
      reads this, buffer
      requires Valid()
      ensures n <= Avail() && Slot(head, buffer.Length) + n <= buffer.Length
      ensures n == 0 <==> Avail() == 0
    {
      var toEnd := buffer.Length - Slot(head, buffer.Length);
      if Avail() < toEnd then Avail() else toEnd
    }

    /** byteq_tailroom(): contiguous bytes in use at the tail. */
    function Tailroom(): (n: nat)
      reads this, buffer
      requires Valid()
      ensures n <= |Contents()| && Slot(tail, buffer.Length) + n <= buffer.Length
      ensures n == 0 <==> Contents() == []
    {
      var toEnd := buffer.Length - Slot(tail, buffer.Length);
      if Used() < toEnd then Used() else toEnd
    }

    /** What byteq_write() passes on: the oldest bytes, in order. */
    lemma TailroomIsFront()
      requires Valid()
      ensures buffer[Slot(tail, buffer.Length)..Slot(tail, buffer.Length) + Tailroom()] == Contents()[..Tailroom()]
    {
      RingFront(buffer[..], tail, Used(), Tailroom());
    }

    /** byteq_put(). */
    method Put(c: Byte)
      requires Valid() && Avail() > 0
      modifies this`head, buffer
      ensures Valid() && Contents() == old(Contents()) + [c]
    {
      ghost var s := buffer[..];
      var h := Slot(head, buffer.Length);
      buffer[h] := c;
      assert buffer[..] == Stored(s, h, [c]);
      StoreAtHead(s, head, tail, [c]);
      HeadAdvances(buffer[..], head, tail, 1);
      head := (head + 1) % U32;
    }

    /** byteq_get(). */
    method Get() returns (c: Byte)
      requires Valid() && Used() > 0
      modifies this`tail
      ensures Valid() && old(Contents()) == [c] + Contents()
    {
      c := buffer[Slot(tail, buffer.Length)];
      RingDrop(buffer[..], tail, Used(), 1);
      assert Contents()[0] == c;
      LevelMoves(head, tail, 1);
      tail := (tail + 1) % U32;
    }

    /** byteq_advance_tail(). */
    method AdvanceTail(n: nat)
      requires Valid() && n <= Tailroom()
      modifies this`tail
      ensures Valid() && Contents() == old(Contents())[n..]
    {
      RingDrop(buffer[..], tail, Used(), n);
      LevelMoves(head, tail, n);
      tail := (tail + n) % U32;
    }

    /** byteq_advance_head(): the caller has stored 'n' bytes at the head. */
    method AdvanceHead(n: nat)
      requires Valid() && n <= Headroom()
      modifies this`head
      ensures Valid()
      ensures var h := Slot(old(head), buffer.Length);
              h + n <= buffer.Length && Contents() == old(Contents()) + buffer[h..h + n]
    {
      HeadAdvances(buffer[..], head, tail, n);
      head := (head + n) % U32;
    }

    /** memcpy() into the buffer. */
    method CopyIn(at: nat, p: seq<Byte>)
      requires at + |p| <= buffer.Length
      modifies buffer
      ensures buffer[..] == Stored(old(buffer[..]), at, p)
    {
      var i := 0;
      while i < |p|
        invariant i <= |p|
        invariant buffer[..] == Stored(old(buffer[..]), at, p[..i])
      {
        buffer[at + i] := p[i];
        i := i + 1;
      }
      assert p[..i] == p;
    }

    /** byteq_putn(): in chunks, split at the end of the buffer. */
    method PutN(p: seq<Byte>)
      requires Valid() && Avail() >= |p|
      modifies this`head, buffer
      ensures Valid() && Contents() == old(Contents()) + p
    {
      var i := 0;
      while i < |p|
        invariant i <= |p| && Valid() && Avail() >= |p| - i
        invariant Contents() == old(Contents()) + p[..i]
      {
        var chunk := if |p| - i < Headroom() then |p| - i else Headroom();
        PutChunk(p[i..i + chunk]);
        assert p[..i + chunk] == p[..i] + p[i..i + chunk];
        i := i + chunk;
      }
      assert p[..i] == p;
    }

    /** What byteq_read() does before it advances the head: bytes are stored at the head
        and are not in the queue yet. */
    method StoreInPlace(p: seq<Byte>)
      requires Valid() && Headroom() >= |p|
      modifies buffer
      ensures Valid() && Contents() == old(Contents())
      ensures Headroom() >= |p| && buffer[Slot(head, buffer.Length)..Slot(head, buffer.Length) + |p|] == p
    {
      ghost var s := buffer[..];
      CopyIn(Slot(head, buffer.Length), p);
      StoreAtHead(s, head, tail, p);
    }

    method PutChunk(p: seq<Byte>)
      requires Valid() && Headroom() >= |p|
      modifies this`head, buffer
      ensures Valid() && Contents() == old(Contents()) + p
    {
      StoreInPlace(p);
      AdvanceHead(|p|);
    }
  }

  // ------------------------------------------------------------------ runs

  datatype Op = PutOp(c: Byte) | PutNOp(p: seq<Byte>) | StoreOp(p: seq<Byte>) | GetOp | AdvanceOp(n: nat)

  /** The bytes that a sequence of operations puts into the queue. */
  function PutBytes(ops: seq<Op>): seq<Byte> {
    if ops == [] then [] else PutBytes(ops[..|ops| - 1]) + BytesOf(ops[|ops| - 1])
  }

  function BytesOf(op: Op): seq<Byte> {
    match op
    case PutOp(c) => [c]
    case PutNOp(p) => p
    case StoreOp(p) => p
    case GetOp => []
    case AdvanceOp(_) => []
  }

  /** How many bytes an operation takes out. */
  function TakenBy(op: Op): nat {
    match op
    case PutOp(_) => 0
    case PutNOp(_) => 0
    case StoreOp(_) => 0
    case GetOp => 1
    case AdvanceOp(n) => n
  }

  /** What the queue's assertions, and the room for direct access, allow. */
  ghost predicate Allowed(q: Byteq, op: Op)
    reads q, q.buffer
    requires q.Valid()
  {
    match op
    case PutOp(_) => q.Avail() > 0
    case PutNOp(p) => q.Avail() >= |p|
    case StoreOp(p) => q.Headroom() >= |p|
    case GetOp => q.Used() > 0
    case AdvanceOp(n) => q.Tailroom() >= n
  }

  /** One operation, unless it is not allowed. */
  method Step(q: Byteq, op: Op) returns (ok: bool, out: seq<Byte>)
    requires q.Valid()
    modifies q, q.buffer
    ensures q.Valid() && ok == old(Allowed(q, op))
    ensures !ok ==> out == [] && q.Contents() == old(q.Contents()) && !Allowed(q, op)
    ensures ok ==> out + q.Contents() == old(q.Contents()) + BytesOf(op) && |out| == TakenBy(op)
  {
    ok, out := true, [];
    match op
    case PutOp(c) =>
      ok := q.Avail() > 0;
      if ok { q.Put(c); }
    case PutNOp(p) =>
      ok := q.Avail() >= |p|;
      if ok { q.PutN(p); }
    case StoreOp(p) =>
      ok := q.Headroom() >= |p|;
      if ok { StoreAndAdvance(q, p); }
    case GetOp =>
      ok := q.Used() > 0;
      if ok {
        var c := q.Get();
        out := [c];
      }
    case AdvanceOp(n) =>
      ok := q.Tailroom() >= n;
      if ok {
        out := TakeFront(q, n);
      }
  }

  /** Stores bytes in place at the head and then takes them in. */
  method StoreAndAdvance(q: Byteq, p: seq<Byte>)
    requires q.Valid() && |p| <= q.Headroom()
    modifies q`head, q.buffer
    ensures q.Valid() && q.Contents() == old(q.Contents()) + p
  {
    q.StoreInPlace(p);
    q.AdvanceHead(|p|);
  }

  /** Reads 'n' bytes in place at the tail and then drops them. */
  method TakeFront(q: Byteq, n: nat) returns (out: seq<Byte>)
    requires q.Valid() && n <= q.Tailroom()
    modifies q`tail
    ensures q.Valid() && out + q.Contents() == old(q.Contents()) && |out| == n
  {
    q.TailroomIsFront();
    var t := Slot(q.tail, q.buffer.Length);
    ghost var front := q.buffer[t..t + q.Tailroom()];
    out := q.buffer[t..t + n];
    assert out == front[..n] == q.Contents()[..n];
    q.AdvanceTail(n);
  }

  lemma PutBytesStep(ops: seq<Op>, k: nat)
    requires k < |ops|
    ensures PutBytes(ops[..k + 1]) == PutBytes(ops[..k]) + BytesOf(ops[k])
  {
    assert ops[..k + 1][..k] == ops[..k];
  }

  lemma Regrouped(a: seq<Byte>, b: seq<Byte>, c: seq<Byte>, d: seq<Byte>, e: seq<Byte>)
    requires b + c == d + e
    ensures a + b + c == a + d + e
  {
    assert a + b + c == a + (b + c) && a + d + e == a + (d + e);
  }

  /** How many bytes a sequence of operations takes out. */
  function Taken(ops: seq<Op>): nat {
    if ops == [] then 0 else Taken(ops[..|ops| - 1]) + TakenBy(ops[|ops| - 1])
  }

  /** Performs 'ops' until one is not allowed, and returns what came out.  In every run,
      what came out followed by what is still queued is exactly what was put in, in
      order, and as much came out as was asked for. */
  method Run(q: Byteq, ops: seq<Op>) returns (out: seq<Byte>, done: nat)
    requires q.Valid() && q.Contents() == []
    modifies q, q.buffer
    ensures q.Valid() && done <= |ops| && (done < |ops| ==> !Allowed(q, ops[done]))
    ensures out + q.Contents() == PutBytes(ops[..done]) && |out| == Taken(ops[..done])
  {
    out, done := [], 0;
    while done < |ops|
      invariant done <= |ops| && q.Valid()
      invariant out + q.Contents() == PutBytes(ops[..done]) && |out| == Taken(ops[..done])
    {
      PutBytesStep(ops, done);
      assert ops[..done + 1][..done] == ops[..done];
      ghost var queued := q.Contents();
      var ok, bytes := Step(q, ops[done]);
      if !ok { return; }
      Regrouped(out, bytes, q.Contents(), queued, BytesOf(ops[done]));
      out := out + bytes;
      done := done + 1;
    }
  }
}
