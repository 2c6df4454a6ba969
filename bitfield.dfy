/** The bit set of src/a2x_pack_bitfield.c: an array of `unsigned long` chunks
    (64 bits each on an LP64 platform), used for "which components an entity has"
    and "which components a system requires". */
module Bitfield {

  const UINT_MAX: nat := 0xFFFF_FFFF
  const BITS_PER_CHUNK: nat := 64

  // ---------------------------------------------------------------------------
  // Chunk count

  /** `(NumBits + A__BITS_PER_CHUNK - 1) / A__BITS_PER_CHUNK` as the source writes
      it: the addition is done in 32-bit `unsigned` arithmetic and wraps. */
  function ChunkCountAsWritten(numBits: nat): nat
    requires numBits <= UINT_MAX
  {
    ((numBits + BITS_PER_CHUNK - 1) % (UINT_MAX + 1)) / BITS_PER_CHUNK
  }

  /** For the largest `unsigned` bit count the wrapped sum gives no chunks at all. */
  lemma ChunkCountAsWrittenOverflows()
    ensures ChunkCountAsWritten(UINT_MAX) == 0
    ensures BITS_PER_CHUNK * ChunkCountAsWritten(UINT_MAX) < UINT_MAX
  {
  }

  /** The intended chunk count: the fewest chunks that hold `numBits` bits. */
  function ChunkCount(numBits: nat): (n: nat)
    ensures BITS_PER_CHUNK * n >= numBits
    ensures n > 0 ==> BITS_PER_CHUNK * (n - 1) < numBits
  {
    (numBits + BITS_PER_CHUNK - 1) / BITS_PER_CHUNK
  }

  /** Below the wrap-around the source's expression and the intended one agree. */
  lemma ChunkCountAgrees(numBits: nat)
    requires numBits + BITS_PER_CHUNK - 1 <= UINT_MAX
    ensures ChunkCountAsWritten(numBits) == ChunkCount(numBits)
  {
  }

  // ---------------------------------------------------------------------------
  // Single chunks

  /** Bit `j` of one chunk: `(value & ((AChunk)1 << j)) != 0`. */
  predicate Has(x: bv64, j: bv6)
  {
    x & (1 << j) != 0
  }

  /** `chunk |= bit`. */
  function Insert(x: bv64, k: bv6): bv64
  {
    x | (1 << k)
  }

  /** `chunk &= ~bit`. */
  function Remove(x: bv64, k: bv6): bv64
  {
    x & !(1 << k)
  }

  /** `(chunk & mask) == mask`. */
  predicate Contains(x: bv64, m: bv64)
  {
    x & m == m
  }

  lemma HasInsertSame(x: bv64, k: bv6)
    ensures Has(Insert(x, k), k)
  {
  }

  lemma HasInsertOther(x: bv64, k: bv6, j: bv6)
    requires j != k
    ensures Has(Insert(x, k), j) == Has(x, j)
  {
    OrOther(x, k, j);
  }

  lemma OrOther(x: bv64, k: bv6, j: bv6)
    requires j != k
    ensures Has(x | (1 << k), j) == Has(x, j)
  {
  }

  lemma HasRemoveSame(x: bv64, k: bv6)
    ensures !Has(Remove(x, k), k)
  {
  }

  lemma HasRemoveOther(x: bv64, k: bv6, j: bv6)
    requires j != k
    ensures Has(Remove(x, k), j) == Has(x, j)
  {
    AndNotOther(x, k, j);
  }

  lemma AndNotOther(x: bv64, k: bv6, j: bv6)
    requires j != k
    ensures Has(x & !(1 << k), j) == Has(x, j)
  {
  }

  lemma ZeroHasNothing(j: bv6)
    ensures !Has(0, j)
  {
  }

  /** The bits strictly below bit `k`. */
  function Below(k: bv6): bv64
  {
    (1 << k) - 1
  }

  lemma BelowStep(d: bv64, k: bv6)
    requires k != 63 && d & Below(k) == 0 && !Has(d, k)
    ensures d & Below(k + 1) == 0
  {
  }

  lemma BelowTop(d: bv64)
    requires d & Below(63) == 0 && !Has(d, 63)
    ensures d == 0
  {
  }

  lemma Successor(k: bv6)
    requires k != 63
    ensures (k + 1) as int == k as int + 1
  {
  }

  /** A chunk none of whose bits from `k` upward is set, and none below `k` either, is zero. */
  lemma {:induction false} NoBitsFrom(d: bv64, k: bv6)
    requires d & Below(k) == 0
    requires forall j: bv6 :: !Has(d, j)
    ensures d == 0
    decreases 63 - k as int
  {
    if k == 63 {
      BelowTop(d);
    } else {
      BelowStep(d, k);
      Successor(k);
      NoBitsFrom(d, k + 1);
    }
  }

  lemma MaskedForward(x: bv64, m: bv64, j: bv6)
    requires Contains(x, m) && Has(m, j)
    ensures Has(x, j)
  {
  }

  lemma MaskedSplit(x: bv64, m: bv64, j: bv6)
    requires Has(m & !x, j)
    ensures Has(m, j) && !Has(x, j)
  {
  }

  lemma MaskedZero(x: bv64, m: bv64)
    requires m & !x == 0
    ensures Contains(x, m)
  {
  }

  /** The chunk test of `a_bitfield_testMask` is the bitwise subset test. */
  lemma ChunkCovers(x: bv64, m: bv64)
    ensures Contains(x, m) <==> (forall j: bv6 :: Has(m, j) ==> Has(x, j))
  {
    if forall j: bv6 :: Has(m, j) ==> Has(x, j) {
      var d := m & !x;
      forall j: bv6 ensures !Has(d, j) {
        if Has(d, j) {
          MaskedSplit(x, m, j);
        }
      }
      NoBitsFrom(d, 0);
      MaskedZero(x, m);
    } else {
      var j: bv6 :| Has(m, j) && !Has(x, j);
      if Contains(x, m) {
        MaskedForward(x, m, j);
      }
    }
  }

  // ---------------------------------------------------------------------------
  // Whole bit sets as chunk sequences

  /** Position of bit `b` inside its chunk: `Bit & a__BITS_PER_CHUNK_MASK`. */
  function Offset(b: nat): bv6
  {
    (b % BITS_PER_CHUNK) as bv6
  }

  lemma OffsetRoundTrip(r: nat)
    requires r < BITS_PER_CHUNK
    ensures (r as bv6) as int == r
  {
  }

  lemma OffsetOfIndex(j: bv6)
    ensures (j as int) as bv6 == j && 0 <= j as int < BITS_PER_CHUNK
  {
  }

  lemma OffsetsDiffer(b: nat, c: nat)
    requires b != c && b / BITS_PER_CHUNK == c / BITS_PER_CHUNK
    ensures Offset(b) != Offset(c)
  {
    OffsetRoundTrip(b % BITS_PER_CHUNK);
    OffsetRoundTrip(c % BITS_PER_CHUNK);
  }

  /** `a_bitfield_test`: bit `b` of the set, found in chunk `b / 64`. */
  predicate IsSet(chunks: seq<bv64>, b: nat)
    requires b < BITS_PER_CHUNK * |chunks|
  {
    Has(chunks[b / BITS_PER_CHUNK], Offset(b))
  }

  /** A freshly allocated (zero-filled) set of `n` chunks. */
  function Zero(n: nat): (z: seq<bv64>)
    ensures |z| == n
    ensures forall b: nat :: b < BITS_PER_CHUNK * n ==> !IsSet(z, b)
  {
    var z := seq(n, _ => 0 as bv64);
    assert forall b: nat :: b < BITS_PER_CHUNK * n ==> !IsSet(z, b) by {
      forall b: nat | b < BITS_PER_CHUNK * n ensures !IsSet(z, b) {
        ZeroHasNothing(Offset(b));
      }
    }
    z
  }

  /** The set after `a_bitfield_set(b)`: bit `b` is set and every other bit keeps its value. */
  function WithBit(chunks: seq<bv64>, b: nat): (r: seq<bv64>)
    requires b < BITS_PER_CHUNK * |chunks|
    ensures |r| == |chunks|
    ensures IsSet(r, b)
    ensures forall c: nat :: c < BITS_PER_CHUNK * |chunks| && c != b ==> IsSet(r, c) == IsSet(chunks, c)
  {
    var i := b / BITS_PER_CHUNK;
    var r := chunks[i := Insert(chunks[i], Offset(b))];
    HasInsertSame(chunks[i], Offset(b));
    forall c: nat | c < BITS_PER_CHUNK * |chunks| && c != b
      ensures IsSet(r, c) == IsSet(chunks, c)
    {
      if c / BITS_PER_CHUNK == i {
        OffsetsDiffer(b, c);
        HasInsertOther(chunks[i], Offset(b), Offset(c));
      }
    }
    r
  }

  /** The set after `a_bitfield_clear(b)`: bit `b` is clear and every other bit keeps its value. */
  function WithoutBit(chunks: seq<bv64>, b: nat): (r: seq<bv64>)
    requires b < BITS_PER_CHUNK * |chunks|
    ensures |r| == |chunks|
    ensures !IsSet(r, b)
    ensures forall c: nat :: c < BITS_PER_CHUNK * |chunks| && c != b ==> IsSet(r, c) == IsSet(chunks, c)
  {
    var i := b / BITS_PER_CHUNK;
    var r := chunks[i := Remove(chunks[i], Offset(b))];
    HasRemoveSame(chunks[i], Offset(b));
    forall c: nat | c < BITS_PER_CHUNK * |chunks| && c != b
      ensures IsSet(r, c) == IsSet(chunks, c)
    {
      if c / BITS_PER_CHUNK == i {
        OffsetsDiffer(b, c);
        HasRemoveOther(chunks[i], Offset(b), Offset(c));
      }
    }
    r
  }

  /** `a_bitfield_testMask(bits, mask)`: chunk by chunk, `bits & mask == mask`. */
  predicate Covers(bits: seq<bv64>, mask: seq<bv64>)
    requires |mask| <= |bits|
  {
    forall i :: 0 <= i < |mask| ==> Contains(bits[i], mask[i])
  }

  /** The chunk-wise test holds exactly when every bit set in the mask is set in `bits`. */
  lemma CoversIff(bits: seq<bv64>, mask: seq<bv64>)
    requires |mask| <= |bits|
    ensures Covers(bits, mask) <==>
            forall b: nat :: b < BITS_PER_CHUNK * |mask| && IsSet(mask, b) ==> IsSet(bits, b)
  {
    if Covers(bits, mask) {
      forall b: nat | b < BITS_PER_CHUNK * |mask| && IsSet(mask, b) ensures IsSet(bits, b) {
        var i := b / BITS_PER_CHUNK;
        ChunkCovers(bits[i], mask[i]);
      }
    } else {
      var i :| 0 <= i < |mask| && !Contains(bits[i], mask[i]);
      ChunkCovers(bits[i], mask[i]);
      var j: bv6 :| Has(mask[i], j) && !Has(bits[i], j);
      OffsetOfIndex(j);
      var b := BITS_PER_CHUNK * i + j as int;
      assert b / BITS_PER_CHUNK == i && b % BITS_PER_CHUNK == j as int;
      assert IsSet(mask, b) && !IsSet(bits, b);
    }
  }

  /** An all-zero mask is covered by any set, and every set covers itself. */
  lemma CoversZeroAndSelf(bits: seq<bv64>, n: nat)
    requires n <= |bits|
    ensures Covers(bits, Zero(n))
    ensures Covers(bits, bits)
  {
  }

  // ---------------------------------------------------------------------------
  // The heap object

  /** `ABitfield`: `numChunks` is `bits.Length`. */
  class Bitfield {
    var bits: array<bv64>

    /** `a_bitfield_new`: fatal for fewer than one bit, otherwise zero-filled. */
    constructor (numBits: nat)
      requires 1 <= numBits <= UINT_MAX
      ensures fresh(bits)
      ensures bits.Length == ChunkCount(numBits)
      ensures bits[..] == Zero(ChunkCount(numBits))
    {
      bits := new bv64[ChunkCount(numBits)](_ => 0);
    }

    /** `a_bitfield_test`: the bit's chunk holds `1 << (bit & 63)`. Testing one bit
        agrees with `a_bitfield_testMask` against a mask holding only that bit. */
    predicate Test(bit: nat): (r: bool)
      reads this, bits
      requires bit < BITS_PER_CHUNK * bits.Length
      ensures r <==> Covers(bits[..], WithBit(Zero(bits.Length), bit))
    {
      CoversIff(bits[..], WithBit(Zero(bits.Length), bit));
      IsSet(bits[..], bit)
    }

    /** `a_bitfield_set`. */
    method Set(bit: nat)
      requires bit < BITS_PER_CHUNK * bits.Length
      modifies bits
      ensures bits[..] == WithBit(old(bits[..]), bit)
      ensures Test(bit)
    {
      var i := bit / BITS_PER_CHUNK;
      bits[i] := Insert(bits[i], Offset(bit));
    }

    /** `a_bitfield_clear`. */
    method Clear(bit: nat)
      requires bit < BITS_PER_CHUNK * bits.Length
      modifies bits
      ensures bits[..] == WithoutBit(old(bits[..]), bit)
      ensures !Test(bit)
    {
      var i := bit / BITS_PER_CHUNK;
      bits[i] := Remove(bits[i], Offset(bit));
    }

    /** `a_bitfield_reset`: every chunk zeroed. */
    method Reset()
      modifies bits
      ensures bits[..] == Zero(bits.Length)
      ensures forall b: nat :: b < BITS_PER_CHUNK * bits.Length ==> !Test(b)
    {
      forall i | 0 <= i < bits.Length {
        bits[i] := 0;
      }
    }

    /** `a_bitfield_testMask(this, Mask)`: walks the mask's chunks from the last down. */
    method TestMask(mask: Bitfield) returns (r: bool)
      requires mask.bits.Length <= bits.Length
      ensures r == Covers(bits[..], mask.bits[..])
    {
      var i := mask.bits.Length;
      while i > 0
        invariant 0 <= i <= mask.bits.Length
        invariant forall k :: i <= k < mask.bits.Length ==> Contains(bits[k], mask.bits[k])
      {
        i := i - 1;
        if !Contains(bits[i], mask.bits[i]) {
          return false;
        }
      }
      return true;
    }
  }
}
