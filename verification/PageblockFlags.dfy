/** The bitmap of pageblock flags of a zone (without SPARSEMEM). */
module PageblockFlags {
  import opened Bits

  /** NR_PAGEBLOCK_BITS: the bits of PB_migrate. */
  const NR_BITS: nat := 3

  const LONG_BITS: nat := 64

  /** roundup to a multiple of 2^k. */
  function Roundup(n: nat, k: nat): int {
    Shl(Shr(n + Pow2(k) - 1, k), k)
  }

  /** usemap_size, in bytes. */
  function UsemapSize(zoneSize: nat, order: nat): int {
    var pages := Roundup(zoneSize, order);
    var bits := (if pages >= 0 then Shr(pages, order) else 0) * NR_BITS;
    (bits + LONG_BITS - 1) / LONG_BITS * LONG_BITS / 8
  }

  lemma {:induction false} ShrShl(a: nat, k: nat)
    ensures Shl(a, k) >= 0 && Shr(Shl(a, k), k) == a
  {
    if k > 0 { ShrShl(a, k - 1); }
  }

  lemma {:induction false} ShrMonotone(a: nat, b: nat, k: nat)
    requires a <= b
    ensures Shr(a, k) <= Shr(b, k)
  {
    if k > 0 { ShrMonotone(a / 2, b / 2, k - 1); }
  }

  lemma LongsHold(bits: nat)
    ensures bits <= 8 * ((bits + LONG_BITS - 1) / LONG_BITS * LONG_BITS / 8)
  {
    var longs := (bits + LONG_BITS - 1) / LONG_BITS;
    assert longs * LONG_BITS >= bits;
    assert longs * LONG_BITS / 8 == longs * 8;
  }

  /** Every bit of every pageblock with a page in the zone lies inside the bitmap. */
  lemma BitsFit(offset: nat, zoneSize: nat, order: nat, bit: nat)
    requires offset < zoneSize && bit < NR_BITS
    ensures Shr(offset, order) * NR_BITS + bit < 8 * UsemapSize(zoneSize, order)
  {
    hide Shr, Shl, Pow2;
    var blocks := Shr(zoneSize + Pow2(order) - 1, order);
    assert Shr(offset, order) + 1 <= blocks by {
      ShrNextBlock(offset, order);
      ShrMonotone(offset + Pow2(order), zoneSize + Pow2(order) - 1, order);
    }
    ShrShl(blocks, order);
    LongsHold(blocks * NR_BITS);
    assert UsemapSize(zoneSize, order) == (blocks * NR_BITS + LONG_BITS - 1) / LONG_BITS * LONG_BITS / 8;
  }

  /** The bitmap is no larger than it has to be: whole longs, fewer than 64 bits beyond NR_BITS per pageblock
      begun. */
  lemma UsemapTight(zoneSize: nat, order: nat)
    ensures UsemapSize(zoneSize, order) % 8 == 0
    ensures 0 <= 8 * UsemapSize(zoneSize, order) - (zoneSize + Pow2(order) - 1) / Pow2(order) * NR_BITS < 64
  {
    hide Shr, Shl, Pow2;
    var blocks := Shr(zoneSize + Pow2(order) - 1, order);
    ShrDivides(zoneSize + Pow2(order) - 1, order);
    ShrShl(blocks, order);
    WholeLongs(blocks * NR_BITS);
  }

  lemma WholeLongs(bits: nat)
    ensures (bits + LONG_BITS - 1) / LONG_BITS * LONG_BITS / 8 % 8 == 0
    ensures 0 <= 8 * ((bits + LONG_BITS - 1) / LONG_BITS * LONG_BITS / 8) - bits < 64
  {
    var longs := (bits + LONG_BITS - 1) / LONG_BITS;
    assert longs * LONG_BITS / 8 == longs * 8;
  }

  /** The number whose bits, low first, are s. */
  function Number(s: seq<bool>): nat {
    if s == [] then 0 else (if s[0] then 1 else 0) + 2 * Number(s[1..])
  }

  lemma NumberNone()
    ensures Number([]) == 0
  {}

  function BitsOf(v: nat, n: nat): (s: seq<bool>)
    ensures |s| == n
  {
    if n == 0 then [] else [v % 2 == 1] + BitsOf(v / 2, n - 1)
  }

  lemma {:induction false} BitsOfAt(v: nat, n: nat, j: nat)
    requires j < n
    ensures BitsOf(v, n)[j] == Bit(v, j)
  {
    if j > 0 { BitsOfAt(v / 2, n - 1, j - 1); }
  }

  lemma {:induction false} NumberAppend(s: seq<bool>, b: bool)
    ensures Number(s + [b]) == Number(s) + if b then Pow2(|s|) else 0
  {
    if s == [] {
      assert [b][1..] == [];
    } else {
      NumberAppend(s[1..], b);
      assert (s + [b])[1..] == s[1..] + [b];
    }
  }

  /** Reading back the low n bits of a value gives those bits. */
  lemma {:induction false} NumberBitsOf(v: nat, n: nat)
    ensures Number(BitsOf(v, n)) == And(v, Pow2(n) - 1)
    decreases n
  {
    if n == 0 {
      ZeroOperand(v);
    } else {
      NumberBitsOf(v / 2, n - 1);
      assert (Pow2(n) - 1) / 2 == Pow2(n - 1) - 1 && (Pow2(n) - 1) % 2 == 1;
      assert BitsOf(v, n)[1..] == BitsOf(v / 2, n - 1);
    }
  }

  lemma SliceOfSlice(s: seq<bool>, a: nat, n: nat, i: nat, j: nat)
    requires a + n <= |s| && i <= j <= n
    ensures s[a..a + n][i..j] == s[a + i..a + j]
  {
    var l, r := s[a..a + n][i..j], s[a + i..a + j];
    forall k | 0 <= k < j - i ensures l[k] == r[k] {
      assert l[k] == s[a..a + n][i + k];
    }
  }

  /** t is s with b written from position at. */
  ghost predicate Written(s: seq<bool>, t: seq<bool>, at: nat, b: seq<bool>)
    requires |s| == |t|
  {
    forall k :: 0 <= k < |s| ==> t[k] == if at <= k < at + |b| then b[k - at] else s[k]
  }

  /** What writing bits b at position lo of the block at a does to that block... */
  lemma BlockWritten(s: seq<bool>, t: seq<bool>, a: nat, lo: nat, b: seq<bool>)
    requires |s| == |t| && a + NR_BITS <= |s| && lo + |b| <= NR_BITS
    requires Written(s, t, a + lo, b)
    ensures var u, v := s[a..a + NR_BITS], t[a..a + NR_BITS];
            v[lo..lo + |b|] == b && v[..lo] == u[..lo] && v[lo + |b|..] == u[lo + |b|..]
  {
    SliceOfSlice(t, a, NR_BITS, lo, lo + |b|);
    SliceOfSlice(t, a, NR_BITS, 0, lo);
    SliceOfSlice(t, a, NR_BITS, lo + |b|, NR_BITS);
    SliceOfSlice(s, a, NR_BITS, 0, lo);
    SliceOfSlice(s, a, NR_BITS, lo + |b|, NR_BITS);
  }

  /** ... and to any other. */
  lemma BlockKept(s: seq<bool>, t: seq<bool>, a: nat, lo: nat, b: seq<bool>, c: nat)
    requires |s| == |t| && lo + |b| <= NR_BITS && c + NR_BITS <= |s| && (c + NR_BITS <= a || a + NR_BITS <= c)
    requires Written(s, t, a + lo, b)
    ensures t[c..c + NR_BITS] == s[c..c + NR_BITS]
  {}

  lemma BlocksApart(a: nat, b: nat)
    requires a * NR_BITS != b * NR_BITS
    ensures a * NR_BITS + NR_BITS <= b * NR_BITS || b * NR_BITS + NR_BITS <= a * NR_BITS
  {}

  class Flags {
    const startPfn: nat
    const spanned: nat
    const order: nat
    const bitmap: array<bool>

    constructor (startPfn: nat, spanned: nat, order: nat)
      ensures Valid() && this.startPfn == startPfn && this.spanned == spanned && this.order == order
    {
      this.startPfn, this.spanned, this.order := startPfn, spanned, order;
      ShrShl(Shr(spanned + Pow2(order) - 1, order), order);
      bitmap := new bool[8 * UsemapSize(spanned, order)](_ => false);
    }

    ghost predicate Valid() {
      bitmap.Length == 8 * UsemapSize(spanned, order)
    }

    predicate InZone(pfn: nat) {
      startPfn <= pfn < startPfn + spanned
    }

    /** pfn_to_bitidx. */
    function BitIndex(pfn: nat): nat
      requires startPfn <= pfn
    {
      Shr(pfn - startPfn, order) * NR_BITS
    }

    /** Two frames are in the same pageblock: the same run of 2^order frames, counted from the zone's start. */
    predicate SamePageblock(p: nat, q: nat)
      requires startPfn <= p && startPfn <= q
    {
      (p - startPfn) / Pow2(order) == (q - startPfn) / Pow2(order)
    }

    /** Each pageblock has NR_BITS bits of its own. */
    lemma OwnBits(p: nat, q: nat)
      requires startPfn <= p && startPfn <= q
      ensures SamePageblock(p, q) <==> BitIndex(p) == BitIndex(q)
      ensures !SamePageblock(p, q) ==> BitIndex(p) + NR_BITS <= BitIndex(q) || BitIndex(q) + NR_BITS <= BitIndex(p)
    {
      hide Shr, Pow2;
      ShrDivides(p - startPfn, order);
      ShrDivides(q - startPfn, order);
      if !SamePageblock(p, q) { BlocksApart(Shr(p - startPfn, order), Shr(q - startPfn, order)); }
    }

    /** The NR_BITS bits of pfn's pageblock. */
    ghost function Block(pfn: nat): (s: seq<bool>)
      requires Valid() && InZone(pfn)
      reads bitmap
      ensures |s| == NR_BITS
    {
      BitsFit(pfn - startPfn, spanned, order, NR_BITS - 1);
      bitmap[..][BitIndex(pfn)..BitIndex(pfn) + NR_BITS]
    }

    /** get_pageblock_flags_group. */
    method Get(pfn: nat, first: nat, last: nat) returns (flags: nat)
      requires Valid() && InZone(pfn) && first <= last < NR_BITS
      ensures flags == Number(Block(pfn)[first..last + 1])
    {
      hide UsemapSize, Shr, Number;
      BitsFit(pfn - startPfn, spanned, order, NR_BITS - 1);
      var idx := BitIndex(pfn);
      flags := 0;
      NumberNone();
      assert bitmap[idx + first..idx + first] == [];
      var value: nat, i := 1, first;
      while i <= last
        invariant first <= i <= last + 1 && value == Pow2(i - first)
        invariant flags == Number(bitmap[idx + first..idx + i])
      {
        NumberAppend(bitmap[idx + first..idx + i], bitmap[idx + i]);
        assert bitmap[idx + first..idx + i + 1] == bitmap[idx + first..idx + i] + [bitmap[idx + i]];
        if bitmap[idx + i] {
          flags := flags + value;
        }
        i := i + 1;
        value := value * 2;
      }
      SliceOfSlice(bitmap[..], idx, NR_BITS, first, last + 1);
      assert bitmap[..][idx + first..idx + last + 1] == bitmap[idx + first..idx + last + 1];
    }

    /** set_pageblock_flags_group: the group's bits become the low bits of flags, and every other bit of
        every pageblock stays as it is. */
    method Set(pfn: nat, flags: nat, first: nat, last: nat)
      requires Valid() && InZone(pfn) && first <= last < NR_BITS
      modifies bitmap
      ensures Block(pfn)[first..last + 1] == BitsOf(flags, last + 1 - first)
      ensures Block(pfn)[..first] == old(Block(pfn))[..first] && Block(pfn)[last + 1..] == old(Block(pfn))[last + 1..]
      ensures forall p: nat :: InZone(p) && SamePageblock(p, pfn) ==> Block(p) == Block(pfn)
      ensures forall p: nat :: InZone(p) && !SamePageblock(p, pfn) ==> Block(p) == old(Block(p))
    {
      hide UsemapSize, BitsOf, SamePageblock, BitIndex, Written;
      IndexFits(pfn);
      var idx := BitIndex(pfn);
      SetBits(idx, flags, first, last);
      ghost var s, b := old(bitmap[..]), BitsOf(flags, last + 1 - first);
      BlockWritten(s, bitmap[..], idx, first, b);
      forall p: nat | InZone(p)
        ensures SamePageblock(p, pfn) ==> Block(p) == Block(pfn)
        ensures !SamePageblock(p, pfn) ==> Block(p) == old(Block(p))
      {
        EitherBlock(p, pfn, s, bitmap[..], first, b);
      }
    }

    /** The loop over the group's bits. */
    method SetBits(idx: nat, flags: nat, first: nat, last: nat)
      requires first <= last && idx + last < bitmap.Length
      modifies bitmap
      ensures Written(old(bitmap[..]), bitmap[..], idx + first, BitsOf(flags, last + 1 - first))
    {
      hide Bit, BitsOf;
      var i := first;
      ghost var n := last + 1 - first;
      while i <= last
        invariant first <= i <= last + 1
        invariant forall k :: 0 <= k < bitmap.Length ==>
                    bitmap[k] == if idx + first <= k < idx + i then BitsOf(flags, n)[k - idx - first] else old(bitmap[k])
      {
        BitsOfAt(flags, n, i - first);
        bitmap[idx + i] := Bit(flags, i - first);
        i := i + 1;
      }
    }

    lemma OtherBlock(p: nat, pfn: nat, s: seq<bool>, t: seq<bool>, first: nat, b: seq<bool>)
      requires Valid() && InZone(p) && InZone(pfn) && BitIndex(p) != BitIndex(pfn)
      requires |s| == |t| == bitmap.Length && first + |b| <= NR_BITS && Written(s, t, BitIndex(pfn) + first, b)
      ensures BitIndex(p) + NR_BITS <= |s| && t[BitIndex(p)..BitIndex(p) + NR_BITS] == s[BitIndex(p)..BitIndex(p) + NR_BITS]
    {
      hide UsemapSize, Shr, Written;
      BitsFit(p - startPfn, spanned, order, NR_BITS - 1);
      BlocksApart(Shr(p - startPfn, order), Shr(pfn - startPfn, order));
      BlockKept(s, t, BitIndex(pfn), first, b, BitIndex(p));
    }

    lemma EitherBlock(p: nat, pfn: nat, s: seq<bool>, t: seq<bool>, first: nat, b: seq<bool>)
      requires Valid() && InZone(p) && InZone(pfn)
      requires |s| == |t| == bitmap.Length && first + |b| <= NR_BITS && Written(s, t, BitIndex(pfn) + first, b)
      ensures BitIndex(p) + NR_BITS <= |s|
      ensures SamePageblock(p, pfn) ==> BitIndex(p) == BitIndex(pfn)
      ensures !SamePageblock(p, pfn) ==> t[BitIndex(p)..BitIndex(p) + NR_BITS] == s[BitIndex(p)..BitIndex(p) + NR_BITS]
    {
      hide UsemapSize, Shr, Written, SamePageblock, BitIndex;
      OwnBits(p, pfn);
      IndexFits(p);
      if BitIndex(p) != BitIndex(pfn) { OtherBlock(p, pfn, s, t, first, b); }
    }

    lemma IndexFits(p: nat)
      requires Valid() && InZone(p)
      ensures BitIndex(p) + NR_BITS <= bitmap.Length
    {
      BitsFit(p - startPfn, spanned, order, NR_BITS - 1);
    }

    /** Writing a value that fits its group and reading it back, for any page of the same pageblock. */
    method RoundTrip(pfn: nat, other: nat, flags: nat, first: nat, last: nat) returns (r: nat)
      requires Valid() && InZone(pfn) && InZone(other) && SamePageblock(other, pfn)
      requires first <= last < NR_BITS
      modifies bitmap
      ensures r == And(flags, Pow2(last + 1 - first) - 1)
    {
      hide And, Pow2, Shr, SamePageblock;
      Set(pfn, flags, first, last);
      r := Get(other, first, last);
      NumberBitsOf(flags, last + 1 - first);
    }
  }
}
