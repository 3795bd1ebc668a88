/**
  IP checksums (lib/csum.c; section 3 of RFC 1624): the running 32-bit sum, its
  folding, and the incremental update of a checksum when a field changes.
 */
module Csum {

  newtype Byte = x: int | 0 <= x < 256

  type U16 = x: int | 0 <= x < 0x1_0000
  type U32 = x: int | 0 <= x < 0x1_0000_0000

  const M: int := 65535

  // -------------------------------------------------------------- meaning

  /** Two bytes of memory read as a native 16-bit word. */
  function Word(a: Byte, b: Byte, littleEndian: bool): U16 {
    if littleEndian then a as int + 256 * b as int else 256 * a as int + b as int
  }

  /** The sum of the words of 'data'; a trailing byte counts as itself. */
  function Sum(data: seq<Byte>, le: bool): nat {
    if |data| == 0 then 0
    else if |data| == 1 then data[0] as int
    else Word(data[0], data[1], le) + Sum(data[2..], le)
  }

  /** The one's-complement value of a sum: 0 stays 0, and every other sum becomes
      its representative in 1 .. 65535 modulo 65535. */
  function Fold(x: nat): U16 {
    if x == 0 then 0 else 1 + (x - 1) % M
  }

  /** The checksum of data whose words add up to 'x'. */
  function Checksum(x: nat): U16 {
    M - Fold(x)
  }

  lemma FoldCongruent(x: nat, y: nat)
    requires (x == 0 <==> y == 0) && (x - y) % M == 0
    ensures Fold(x) == Fold(y)
  {
    if x > 0 {
      assert (x - 1) % M == (y - 1) % M by {
        var k := (x - y) / M;
        assert x - 1 == (y - 1) + k * M;
        ModAdd(y - 1, k);
      }
    }
  }

  lemma ModAdd(a: int, k: int)
    ensures (a + k * M) % M == a % M
  {
    var (q, r) := (a / M, a % M);
    assert a + k * M == (q + k) * M + r;
    ModUnique(a + k * M, q + k, r);
  }

  lemma ModUnique(a: int, q: int, r: int)
    requires a == q * M + r && 0 <= r < M
    ensures a % M == r
  {
    var (q', r') := (a / M, a % M);
    assert (q - q') * M == r' - r;
  }

  lemma FoldIsCongruent(x: nat)
    ensures (Fold(x) - x) % M == 0
    ensures Fold(x) == 0 <==> x == 0
  {
    if x > 0 {
      var q := (x - 1) / M;
      assert Fold(x) - x == 0 + (-q) * M;
      ModAdd(0, -q);
    }
  }

  // ------------------------------------------------------------ the loops

  /** csum_finish(): repeatedly adds the high half to the low half. */
  method Finish(partial0: U32) returns (c: U16)
    ensures c == Checksum(partial0)
  {
    var partial: int := partial0;
    while partial / 0x1_0000 != 0
      invariant 0 <= partial < 0x1_0000_0000
      invariant Fold(partial) == Fold(partial0)
      decreases partial
    {
      var high, low := partial / 0x1_0000, partial % 0x1_0000;
      assert partial - (low + high) == 0 + high * M;
      ModAdd(0, high);
      FoldCongruent(partial, low + high);
      partial := low + high;
    }
    FoldSmall(partial);
    c := M - partial;
  }

  lemma FoldSmall(x: nat)
    requires x <= M
    ensures Fold(x) == x
  {
  }

  /** csum_continue(): the running sum is a uint32_t. */
  method Continue(partial0: U32, data: seq<Byte>, le: bool) returns (partial: U32)
    ensures partial == (partial0 + Sum(data, le)) % 0x1_0000_0000
  {
    partial := partial0;
    var i := 0;
    assert data[0..] == data;
    while |data| - i > 1
      invariant 0 <= i <= |data|
      invariant (partial0 + Sum(data, le)) % 0x1_0000_0000 == (partial + Sum(data[i..], le)) % 0x1_0000_0000
    {
      var w := Word(data[i], data[i + 1], le);
      assert data[i..][2..] == data[i + 2..];
      WrapStep(partial, w, Sum(data[i + 2..], le));
      partial := (partial + w) % 0x1_0000_0000;
      i := i + 2;
    }
    if |data| - i > 0 {
      WrapStep(partial, data[i] as int, 0);
      partial := (partial + data[i] as int) % 0x1_0000_0000;
    }
  }

  lemma WrapStep(a: int, b: int, c: int)
    ensures (a + (b + c)) % 0x1_0000_0000 == ((a + b) % 0x1_0000_0000 + c) % 0x1_0000_0000
  {
  }

  /** Sums that a 32-bit counter turns into the right checksum. */
  predicate WrapHarmless(x: nat) {
    x / 0x1_0000_0000 % M == 0 && (x == 0 || x % 0x1_0000_0000 != 0)
  }

  /** csum(): the result is the one's-complement checksum of all the words exactly
      when the counter does not wrap or wraps harmlessly; it cannot wrap on up to
      131074 bytes. */
  method ChecksumOf(data: seq<Byte>, le: bool) returns (c: U16)
    ensures c == Checksum(Sum(data, le)) <==> WrapHarmless(Sum(data, le))
    ensures |data| <= 131074 ==> c == Checksum(Sum(data, le))
  {
    SumBound(data, le);
    WrapHarmlessExactly(Sum(data, le));
    var partial := Continue(0, data, le);
    c := Finish(partial);
  }

  /** Losing a multiple of 2^32 changes the checksum unless the multiple is divisible
      by 65535 and something is left. */
  lemma WrapHarmlessExactly(x: nat)
    ensures Checksum(x % 0x1_0000_0000) == Checksum(x) <==> WrapHarmless(x)
  {
    var (q, r) := (x / 0x1_0000_0000, x % 0x1_0000_0000);
    if r > 0 {
      var k := 65537 * q;
      assert x - r == q + k * M;
      ModAdd(q, k);
      if q % M == 0 {
        FoldCongruent(x, r);
      } else if Fold(x) == Fold(r) {
        assert x - r == 0 + ((x - 1) / M - (r - 1) / M) * M;
        ModAdd(0, (x - 1) / M - (r - 1) / M);
      }
    }
  }

  lemma {:induction false} SumBound(data: seq<Byte>, le: bool)
    ensures Sum(data, le) <= M * (|data| / 2) + 255 * (|data| % 2)
    ensures |data| <= 131074 ==> Sum(data, le) < 0x1_0000_0000
  {
    if |data| >= 2 {
      SumBound(data[2..], le);
    }
  }

  /** The limit is sharp: one byte more, all of them 0xff, makes the sum wrap, and the
      checksum that comes out is wrong. */
  lemma SumCanWrap(data: seq<Byte>, le: bool)
    requires |data| == 131075 && forall i | 0 <= i < |data| :: data[i] == 255
    ensures Sum(data, le) >= 0x1_0000_0000 && !WrapHarmless(Sum(data, le))
    ensures Checksum(Sum(data, le) % 0x1_0000_0000) != Checksum(Sum(data, le))
  {
    AllOnes(data, le);
    WrapHarmlessExactly(Sum(data, le));
  }

  lemma {:induction false} AllOnes(data: seq<Byte>, le: bool)
    requires forall i | 0 <= i < |data| :: data[i] == 255
    ensures Sum(data, le) == M * (|data| / 2) + 255 * (|data| % 2)
  {
    if |data| >= 2 {
      AllOnes(data[2..], le);
    }
  }

  // ------------------------------------------------------- trailing byte

  lemma {:induction false} SumConcat(a: seq<Byte>, b: seq<Byte>, le: bool)
    requires |a| % 2 == 0
    ensures Sum(a + b, le) == Sum(a, le) + Sum(b, le)
  {
    if |a| == 0 {
      assert a + b == b;
    } else {
      assert (a + b)[2..] == a[2..] + b;
      SumConcat(a[2..], b, le);
    }
  }

  /** RFC 1071 pads odd data with a zero byte.  Adding the last byte as a number
      does the same exactly on a little-endian machine, or when it is zero. */
  lemma OddDataPadded(data: seq<Byte>, b: Byte, le: bool)
    requires |data| % 2 == 0
    ensures Checksum(Sum(data + [b], le)) == Checksum(Sum(data + [b, 0], le)) <==> le || b == 0
  {
    SumConcat(data, [b], le);
    SumConcat(data, [b, 0], le);
    assert [b, 0][2..] == [];
    if !le && b != 0 {
      FoldApart(Sum(data + [b], le), 255 * b as int);
    }
  }

  lemma FoldApart(x: nat, d: nat)
    requires x > 0 && 0 < d < M
    ensures Fold(x) != Fold(x + d)
  {
    var (q, r) := ((x - 1) / M, (x - 1) % M);
    if r + d < M {
      ModUnique(x + d - 1, q, r + d);
    } else {
      ModUnique(x + d - 1, q + 1, r + d - M);
    }
  }

  // ------------------------------------------------------ incremental update

  /** The arithmetic of recalc_csum16(); see section 3 of RFC 1624. */
  function Update16(c: U16, a: U16, b: U16): U16 {
    Checksum((M - c) + (M - a) + b)
  }

  function Low(w: U32): U16 { w % 0x1_0000 }

  function High(w: U32): U16 { w / 0x1_0000 }

  function Halves(w: U32): nat { Low(w) + High(w) }

  function Update32(c: U16, a: U32, b: U32): U16 {
    Update16(Update16(c, Low(a), Low(b)), High(a), High(b))
  }

  function Update128(c: U16, a: seq<U32>, b: seq<U32>): U16
    requires |a| == |b|
    decreases |a|
  {
    if a == [] then c else Update128(Update32(c, a[0], b[0]), a[1..], b[1..])
  }

  function AllHalves(a: seq<U32>): nat {
    if a == [] then 0 else Halves(a[0]) + AllHalves(a[1..])
  }

  /** 'c' is the checksum of data whose words add up to 'x', or the other of the
      two one's-complement zeros; 0xffff only for data that are all zero. */
  ghost predicate Stands(c: U16, x: nat) {
    ((M - c) - x) % M == 0 && (c == M ==> x == 0)
  }

  lemma ChecksumStands(x: nat)
    ensures Stands(Checksum(x), x)
  {
    FoldIsCongruent(x);
  }

  /** Replacing a word 'a' by 'b' in the data: the updated checksum stands for the
      new data and is never 0xffff. */
  lemma Update16Stands(c: U16, x: nat, a: U16, b: U16)
    requires Stands(c, x) && a <= x
    ensures Stands(Update16(c, a, b), x - a + b) && Update16(c, a, b) != M
  {
    var s := (M - c) + (M - a) + b;
    FoldIsCongruent(s);
    var (j, k) := ((Fold(s) - s) / M, ((M - c) - x) / M);
    assert Fold(s) - (x - a + b) == 0 + (j + k + 1) * M;
    ModAdd(0, j + k + 1);
  }

  lemma Update32Stands(c: U16, x: nat, a: U32, b: U32)
    requires Stands(c, x) && Halves(a) <= x
    ensures Stands(Update32(c, a, b), x - Halves(a) + Halves(b)) && Update32(c, a, b) != M
  {
    Update16Stands(c, x, Low(a), Low(b));
    Update16Stands(Update16(c, Low(a), Low(b)), x - Low(a) + Low(b), High(a), High(b));
  }

  lemma {:induction false} Update128Stands(c: U16, x: nat, a: seq<U32>, b: seq<U32>)
    requires |a| == |b| && Stands(c, x) && AllHalves(a) <= x
    ensures Stands(Update128(c, a, b), x - AllHalves(a) + AllHalves(b))
    ensures a != [] ==> Update128(c, a, b) != M
    decreases |a|
  {
    if a != [] {
      Update32Stands(c, x, a[0], b[0]);
      var (c', x') := (Update32(c, a[0], b[0]), x - Halves(a[0]) + Halves(b[0]));
      Update128Stands(c', x', a[1..], b[1..]);
    }
  }

  /** A stand-in other than 0xffff is the checksum itself, except for data that
      are all zero. */
  lemma StandsIsChecksum(c: U16, x: nat)
    requires Stands(c, x) && c != M
    ensures c == Checksum(x) <==> x != 0
  {
    if x != 0 {
      FoldCongruent(M - c, x);
      FoldSmall(M - c);
    }
  }

  // ----------------------------------------------------- fields in memory

  /** Four bytes of memory read as a native 32-bit word. */
  function Native32(f: seq<Byte>, le: bool): U32
    requires |f| == 4
  {
    var v: int := Word(f[0], f[1], le);
    var w: int := Word(f[2], f[3], le);
    if le then v + 0x1_0000 * w else 0x1_0000 * v + w
  }

  function Native32s(f: seq<Byte>, le: bool): (r: seq<U32>)
    requires |f| % 4 == 0
    ensures |r| == |f| / 4
  {
    if f == [] then [] else [Native32(f[..4], le)] + Native32s(f[4..], le)
  }

  lemma Native32Sum(f: seq<Byte>, le: bool)
    requires |f| == 4
    ensures Halves(Native32(f, le)) == Sum(f, le)
  {
    var v: int := Word(f[0], f[1], le);
    var w: int := Word(f[2], f[3], le);
    SumOfFour(f, le);
    if le { HalvesOf(w, v); } else { HalvesOf(v, w); }
  }

  lemma SumOfFour(f: seq<Byte>, le: bool)
    requires |f| == 4
    ensures Sum(f, le) == Word(f[0], f[1], le) as int + Word(f[2], f[3], le) as int
  {
    assert f[2..][2..] == [];
    assert Sum(f[2..], le) == Word(f[2], f[3], le);
  }

  lemma HalvesOf(high: int, low: int)
    requires 0 <= high < 0x1_0000 && 0 <= low < 0x1_0000
    ensures Halves(0x1_0000 * high + low) == high + low
  {
  }

  lemma {:induction false} Native32sSum(f: seq<Byte>, le: bool)
    requires |f| % 4 == 0
    ensures AllHalves(Native32s(f, le)) == Sum(f, le)
  {
    if f != [] {
      Native32sSum(f[4..], le);
      Native32Sum(f[..4], le);
      assert f == f[..4] + f[4..];
      SumConcat(f[..4], f[4..], le);
      assert Native32s(f, le)[1..] == Native32s(f[4..], le);
    }
  }

  lemma FieldSum(pre: seq<Byte>, f: seq<Byte>, post: seq<Byte>, le: bool)
    requires |pre| % 2 == 0 && |f| % 2 == 0
    ensures Sum(pre + f + post, le) == Sum(pre, le) + Sum(f, le) + Sum(post, le)
  {
    SumConcat(pre + f, post, le);
    SumConcat(pre, f, le);
  }

  predicate AllZero(data: seq<Byte>) {
    forall i | 0 <= i < |data| :: data[i] == 0
  }

  /** The words add up to zero only when every byte is zero. */
  lemma {:induction false} SumZero(data: seq<Byte>, le: bool)
    ensures Sum(data, le) == 0 <==> AllZero(data)
  {
    if |data| >= 2 {
      SumZero(data[2..], le);
      assert forall i | 2 <= i < |data| :: data[i] == data[2..][i - 2];
    }
  }

  /** A 16-bit field at an even offset changes from 'f' to 'g': the incremental result is
      the checksum of the new data exactly when some byte of them is not zero. */
  lemma Recalc16Exact(pre: seq<Byte>, f: seq<Byte>, g: seq<Byte>, post: seq<Byte>, le: bool)
    requires |pre| % 2 == 0 && |f| == |g| == 2
    ensures var (x, y) := (Sum(pre + f + post, le), Sum(pre + g + post, le));
            Update16(Checksum(x), Word(f[0], f[1], le), Word(g[0], g[1], le)) == Checksum(y) <==> !AllZero(pre + g + post)
  {
    var x := Sum(pre + f + post, le);
    FieldSum(pre, f, post, le);
    FieldSum(pre, g, post, le);
    assert f[2..] == [] && g[2..] == [];
    var (a, b) := (Word(f[0], f[1], le), Word(g[0], g[1], le));
    ChecksumStands(x);
    Update16Stands(Checksum(x), x, a, b);
    StandsIsChecksum(Update16(Checksum(x), a, b), x - a + b);
    SumZero(pre + g + post, le);
  }

  /** The same for a 32-bit field, updated in two halves. */
  lemma Recalc32Exact(pre: seq<Byte>, f: seq<Byte>, g: seq<Byte>, post: seq<Byte>, le: bool)
    requires |pre| % 2 == 0 && |f| == |g| == 4
    ensures var (x, y) := (Sum(pre + f + post, le), Sum(pre + g + post, le));
            Update32(Checksum(x), Native32(f, le), Native32(g, le)) == Checksum(y) <==> !AllZero(pre + g + post)
  {
    var x := Sum(pre + f + post, le);
    var (a, b) := (Native32(f, le), Native32(g, le));
    FieldChange32(pre, f, g, post, le);
    ChecksumStands(x);
    Update32Stands(Checksum(x), x, a, b);
    StandsIsChecksum(Update32(Checksum(x), a, b), x - Halves(a) + Halves(b));
    SumZero(pre + g + post, le);
  }

  lemma FieldChange32(pre: seq<Byte>, f: seq<Byte>, g: seq<Byte>, post: seq<Byte>, le: bool)
    requires |pre| % 2 == 0 && |f| == |g| == 4
    ensures Sum(pre + f + post, le) >= Halves(Native32(f, le))
    ensures Sum(pre + g + post, le) == Sum(pre + f + post, le) - Halves(Native32(f, le)) + Halves(Native32(g, le))
  {
    FieldSum(pre, f, post, le);
    FieldSum(pre, g, post, le);
    Native32Sum(f, le);
    Native32Sum(g, le);
  }

  /** The same for a 128-bit field, such as an IPv6 address. */
  lemma Recalc128Exact(pre: seq<Byte>, f: seq<Byte>, g: seq<Byte>, post: seq<Byte>, le: bool)
    requires |pre| % 2 == 0 && |f| == |g| == 16
    ensures var (x, y) := (Sum(pre + f + post, le), Sum(pre + g + post, le));
            Update128(Checksum(x), Native32s(f, le), Native32s(g, le)) == Checksum(y) <==> !AllZero(pre + g + post)
  {
    var x := Sum(pre + f + post, le);
    FieldSum(pre, f, post, le);
    FieldSum(pre, g, post, le);
    var (a, b) := (Native32s(f, le), Native32s(g, le));
    Native32sSum(f, le);
    Native32sSum(g, le);
    ChecksumStands(x);
    Update128Stands(Checksum(x), x, a, b);
    StandsIsChecksum(Update128(Checksum(x), a, b), x - AllHalves(a) + AllHalves(b));
    SumZero(pre + g + post, le);
  }

  // ------------------------------------------------- the code of the updates

  /** recalc_csum16(). */
  method Recalc16(oldCsum: U16, oldWord: U16, newWord: U16) returns (c: U16)
    ensures c == Update16(oldCsum, oldWord, newWord)
  {
    var hc, m, m' := M - oldCsum, M - oldWord, newWord;
    c := Finish(hc + m + m');
  }

  /** recalc_csum32(). */
  method Recalc32(oldCsum: U16, oldWord: U32, newWord: U32) returns (c: U16)
    ensures c == Update32(oldCsum, oldWord, newWord)
  {
    c := Recalc16(oldCsum, oldWord % 0x1_0000, newWord % 0x1_0000);
    c := Recalc16(c, oldWord / 0x1_0000, newWord / 0x1_0000);
  }

  /** recalc_csum128(). */
  method Recalc128(oldCsum: U16, oldWords: seq<U32>, newWords: seq<U32>) returns (c: U16)
    requires |oldWords| == |newWords| == 4
    ensures c == Update128(oldCsum, oldWords, newWords)
  {
    c := oldCsum;
    var i := 0;
    while i < 4
      invariant 0 <= i <= 4
      invariant Update128(oldCsum, oldWords, newWords) == Update128(c, oldWords[i..], newWords[i..])
    {
      assert oldWords[i..][1..] == oldWords[i + 1..] && newWords[i..][1..] == newWords[i + 1..];
      c := Recalc32(c, oldWords[i], newWords[i]);
      i := i + 1;
    }
  }
}
