/** zone_watermark_ok, and what its answer means for the allocation that follows. */
module Watermark {
  import opened Bits
  import opened Buddy
  import opened FreeLists
  import opened FreeArea
  import opened PageAlloc

  /** unsigned long is 64 bits wide here; nothing below depends on the width. */
  const ULONG: nat := 0x1_0000_0000_0000_0000

  function Unsigned(x: int): nat {
    x % ULONG
  }

  /** The mark after the reductions for ALLOC_HIGH and ALLOC_HARDER. */
  function Lowered(mark: nat, allocHigh: bool, allocHarder: bool): nat {
    var m := if allocHigh then mark - mark / 2 else mark;
    if allocHarder then m - m / 4 else m
  }

  /** Enough pages beyond the lowered mark and the reserve, and at every order up to the requested
      one, enough pages in blocks of that order or larger. The first comparison is unsigned. */
  ghost predicate AboveMark(area: seq<Area>, nr: int, order: nat, mark: nat, reserve: nat)
    requires order <= |area|
  {
    && Unsigned(nr - Pow2(order) + 1) > Unsigned(mark + reserve)
    && forall k: nat :: 1 <= k <= order ==> nr - Pow2(order) + 1 - FreeCount(area, k) > Shr(mark, k)
  }

  lemma {:induction false} ShrStep(a: nat, k: nat)
    ensures Shr(a, k + 1) == Shr(a, k) / 2
  {
    if k > 0 { ShrStep(a / 2, k - 1); }
  }

  /** zone_watermark_ok, for a counter read as nr. */
  method ZoneWatermarkOk(area: seq<Area>, nr: int, order: nat, mark: nat, reserve: nat, allocHigh: bool, allocHarder: bool)
    returns (ok: bool)
    requires order <= |area|
    ensures ok <==> AboveMark(area, nr, order, Lowered(mark, allocHigh, allocHarder), reserve)
  {
    var min: int := mark;
    var freePages := nr - Pow2(order) + 1;
    if allocHigh {
      min := min - min / 2;
    }
    if allocHarder {
      min := min - min / 4;
    }
    ghost var m: nat := min;
    if Unsigned(freePages) <= Unsigned(min + reserve) {
      return false;
    }
    for o := 0 to order
      invariant freePages == nr - Pow2(order) + 1 - FreeCount(area, o) && min == Shr(m, o)
      invariant forall k: nat :: 1 <= k <= o ==> nr - Pow2(order) + 1 - FreeCount(area, k) > Shr(m, k)
    {
      freePages := freePages - Shl(area[o].nrFree, o);
      ShrStep(m, o);
      min := min / 2;
      if freePages <= min {
        return false;
      }
    }
    return true;
  }

  lemma {:induction false} SomeCounted(area: seq<Area>, n: nat, m: nat) returns (o: nat)
    requires n <= m <= |area| && FreeCount(area, m) > FreeCount(area, n)
    requires forall i :: 0 <= i < |area| ==> area[i].nrFree >= 0
    ensures n <= o < m && area[o].nrFree > 0
    decreases m
  {
    if area[m - 1].nrFree > 0 && n <= m - 1 {
      o := m - 1;
    } else {
      ShlZero(m - 1);
      o := SomeCounted(area, n, m - 1);
    }
  }

  /** Watermark implies success: with an exact counter and no free page isolated, a request that
      passes the watermark test is served, whichever mobility type it is for. */
  lemma WatermarkServes(c: Core, z: Zoning, order: nat, mark: nat, reserve: nat, t: nat)
    requires Ready(c, z) && Shape(c) && order < MAX_ORDER && t < MIGRATE_PCPTYPES
    requires AboveMark(c.area, |Free(c)|, order, mark, reserve)
    requires Empty(c, 0, MAX_ORDER, MIGRATE_ISOLATE)
    ensures Rmqueue(c, z, order, t).0.Some?
  {
    hide Inv, Free, Rmqueue, WellFormed, Backed, Unsigned, Mass, Typed;
    InvCount(c);
    assert |Free(c)| > FreeCount(c.area, order) by {
      Pow2Monotone(0, order);
      if order == 0 { NonZero(|Free(c)|, mark + reserve); }
    }
    CountsListed(c);
    var o := SomeCounted(c.area, order, |c.area|);
    var u := NonEmptyList(c.area[o].lists);
    assert !Empty(c, order, MAX_ORDER, u);
    RmqueueNullMobile(c, z, order, t);
  }

  lemma CountsListed(c: Core)
    requires Inv(c)
    ensures forall o :: 0 <= o < MAX_ORDER ==>
              c.area[o].nrFree >= 0 && (c.area[o].nrFree > 0 ==> Mass(c.area[o].lists) != multiset{})
  {
    hide Mass, Free, WellFormed, Backed;
  }

  lemma NonZero(x: int, y: int)
    requires Unsigned(x) > Unsigned(y)
    ensures x != 0
  {}

  // ---------- what is left after the allocation ----------

  /** q is a page of a free block of an order below k. */
  ghost predicate Under(c: Core, q: nat, k: nat) {
    exists h: nat :: h in c.mm && c.mm[h].buddy && c.mm[h].priv < k && Inside(q, h, c.mm[h].priv)
  }

  ghost function SmallPages(c: Core, k: nat): set<nat> {
    set q | q in c.mm && Under(c, q, k)
  }

  ghost function Heads(c: Core, o: nat): set<nat> {
    set h | h in c.mm && IsHead(c.mm, h, o)
  }

  ghost function PagesOf(hs: set<nat>, o: nat): set<nat> {
    set h, q | h in hs && q in Span(h, o) :: q
  }

  lemma {:induction false} DisjointSpans(hs: set<nat>, o: nat)
    requires forall h, k :: h in hs && k in hs && h != k ==> Apart(h, o, k, o)
    ensures |PagesOf(hs, o)| == Shl(|hs|, o)
  {
    hide Span, Shl, PagesOf, Apart;
    ShlZero(o);
    if hs == {} {
      NoPages(o);
    } else {
      var h :| h in hs;
      var rest := hs - {h};
      DisjointSpans(rest, o);
      OnePages(hs, h, o);
      CardSpan(h, o);
      ShlAdd(|rest|, 1, o);
    }
  }

  lemma NoPages(o: nat)
    ensures PagesOf({}, o) == {}
  {}

  lemma OnePages(hs: set<nat>, h: nat, o: nat)
    requires h in hs && forall k :: k in hs && h != k ==> Apart(h, o, k, o)
    ensures PagesOf(hs, o) == Span(h, o) + PagesOf(hs - {h}, o)
    ensures Span(h, o) !! PagesOf(hs - {h}, o)
  {
    hide Span, Apart;
    forall q | q in Span(h, o) ensures q !in PagesOf(hs - {h}, o) {
      if q in PagesOf(hs - {h}, o) {
        var k :| k in hs - {h} && q in Span(k, o);
        InBoth(h, k, o, q);
      }
    }
  }

  lemma InBoth(h: nat, k: nat, o: nat, q: nat)
    requires q in Span(h, o) && q in Span(k, o)
    ensures !Apart(h, o, k, o)
  {}

  /** nr_free of an order is the number of its free blocks. */
  lemma HeadsCount(c: Core, o: nat)
    requires Inv(c) && o < MAX_ORDER
    ensures o < |c.area| && c.area[o].nrFree == |Heads(c, o)|
  {
    hide Mass, WellFormed, Backed, Free;
    assert Listed(c, o);
    assert Mass(c.area[o].lists) == multiset(Heads(c, o));
  }

  lemma NextOrder(c: Core, k: nat)
    requires Inv(c) && k < MAX_ORDER
    ensures SmallPages(c, k + 1) == SmallPages(c, k) + PagesOf(Heads(c, k), k)
    ensures SmallPages(c, k) !! PagesOf(Heads(c, k), k)
    ensures |PagesOf(Heads(c, k), k)| == Shl(|Heads(c, k)|, k)
  {
    hide Inv, Span, WellFormed, Backed, Under, PagesOf, Heads;
    InvShape(c);
    forall q: nat
      ensures q in PagesOf(Heads(c, k), k) ==> q in c.mm && !Under(c, q, k)
      ensures Under(c, q, k + 1) <==> Under(c, q, k) || q in PagesOf(Heads(c, k), k)
    {
      PagesAt(c, k, q);
      UnderStep(c, q, k);
      if q in PagesOf(Heads(c, k), k) {
        var h: nat :| IsHead(c.mm, h, k) && Inside(q, h, k);
        NotUnder(c, h, k, q);
      }
    }
    HeadSpans(c, k);
  }

  lemma HeadSpans(c: Core, k: nat)
    requires WellFormed(BlocksOf(c.mm))
    ensures |PagesOf(Heads(c, k), k)| == Shl(|Heads(c, k)|, k)
  {
    hide WellFormed, PagesOf;
    forall h, h' | h in Heads(c, k) && h' in Heads(c, k) && h != h' ensures Apart(h, k, h', k) {
      HeadsApart(BlocksOf(c.mm), h, h');
      HeadsApart(BlocksOf(c.mm), h', h);
    }
    DisjointSpans(Heads(c, k), k);
  }

  lemma PagesAt(c: Core, k: nat, q: nat)
    ensures q in PagesOf(Heads(c, k), k) <==> exists h: nat :: IsHead(c.mm, h, k) && Inside(q, h, k)
  {
    hide Span;
    if q in PagesOf(Heads(c, k), k) {
      var h :| h in Heads(c, k) && q in Span(h, k);
      InSpanAt(h, k, q);
    }
    if h: nat :| IsHead(c.mm, h, k) && Inside(q, h, k) {
      InSpanAt(h, k, q);
      assert h in Heads(c, k);
    }
  }

  /** A page of a block of order k is in no smaller one. */
  lemma NotUnder(c: Core, h: nat, k: nat, q: nat)
    requires WellFormed(BlocksOf(c.mm)) && Backed(c.mm) && IsHead(c.mm, h, k) && Inside(q, h, k)
    ensures q in c.mm && !Under(c, q, k)
  {
    hide WellFormed, Backed;
    PageExists(c, h, q);
    if h': nat :| h' in c.mm && c.mm[h'].buddy && c.mm[h'].priv < k && Inside(q, h', c.mm[h'].priv) {
      HeadsApart(BlocksOf(c.mm), h, h');
      HeadsApart(BlocksOf(c.mm), h', h);
    }
  }

  lemma UnderStep(c: Core, q: nat, k: nat)
    ensures Under(c, q, k + 1) <==> Under(c, q, k) || exists h: nat :: IsHead(c.mm, h, k) && Inside(q, h, k)
  {
    if h: nat :| h in c.mm && c.mm[h].buddy && c.mm[h].priv < k + 1 && Inside(q, h, c.mm[h].priv) {
      assert c.mm[h].priv < k || IsHead(c.mm, h, k);
    }
  }

  lemma InSpanAt(h: nat, o: nat, q: nat)
    ensures q in Span(h, o) <==> Inside(q, h, o)
  {}

  lemma PageExists(c: Core, h: nat, q: nat)
    requires Backed(c.mm) && h in c.mm && c.mm[h].buddy && Inside(q, h, c.mm[h].priv)
    ensures q in c.mm
  {
    assert h in BlocksOf(c.mm);
    assert Covers(BlocksOf(c.mm), q);
  }

  /** The sum of nr_free << o over the orders below k is the number of free pages in blocks of those orders. */
  lemma {:induction false} SmallCount(c: Core, k: nat)
    requires Inv(c) && k <= MAX_ORDER
    ensures |c.area| == MAX_ORDER && |SmallPages(c, k)| == FreeCount(c.area, k)
  {
    hide Inv, PagesOf, Heads, SmallPages, FreeCount, Shl;
    InvShape(c);
    NoneSmall(c);
    if k > 0 {
      SmallCount(c, k - 1);
      NextOrder(c, k - 1);
      HeadsCount(c, k - 1);
      CountNext(c.area, k);
    }
  }

  lemma NoneSmall(c: Core)
    ensures SmallPages(c, 0) == {} && FreeCount(c.area, 0) == 0
  {}

  lemma CountNext(a: seq<Area>, k: nat)
    requires 0 < k <= |a|
    ensures FreeCount(a, k) == FreeCount(a, k - 1) + Shl(a[k - 1].nrFree, k - 1)
  {}

  lemma SmallAreFree(c: Core, k: nat)
    requires Inv(c)
    ensures SmallPages(c, k) <= Free(c)
  {
    forall q | q in SmallPages(c, k) ensures q in Free(c) {
      var h: nat :| h in c.mm && c.mm[h].buddy && c.mm[h].priv < k && Inside(q, h, c.mm[h].priv);
      assert h in BlocksOf(c.mm);
    }
  }

  /** What passing the test means in pages: with the block gone at least mark + reserve stay free, and of the
      pages in blocks of each order k up to the requested one at least mark / 2^k. */
  lemma WatermarkLeaves(c: Core, order: nat, mark: nat, reserve: nat)
    requires Inv(c) && order <= MAX_ORDER && |Free(c)| < ULONG && mark + reserve < ULONG
    ensures |c.area| == MAX_ORDER
    ensures AboveMark(c.area, |Free(c)|, order, mark, reserve) <==>
            && |Free(c)| - Pow2(order) >= mark + reserve
            && forall k: nat :: 1 <= k <= order ==> |Free(c) - SmallPages(c, k)| - Pow2(order) >= mark / Pow2(k)
  {
    hide Inv, Free, SmallPages, Shr, Pow2;
    InvShape(c);
    forall k: nat | 1 <= k <= order
      ensures |Free(c) - SmallPages(c, k)| == |Free(c)| - FreeCount(c.area, k) && FreeCount(c.area, k) >= 0
      ensures Shr(mark, k) == mark / Pow2(k) >= 0
    {
      SmallCount(c, k);
      SmallAreFree(c, k);
      Remainder(Free(c), SmallPages(c, k));
      ShrDivides(mark, k);
    }
    OneBlock(order);
    var left := |Free(c)| - Pow2(order) + 1;
    if left < 0 && order >= 1 { assert 1 <= 1 <= order; }
    Small(mark + reserve);
    if left >= 0 { Small(left); }
  }

  lemma OneBlock(order: nat)
    ensures order == 0 ==> Pow2(order) == 1
  {}

  lemma Small(x: nat)
    requires x < ULONG
    ensures Unsigned(x) == x
  {}

  lemma Remainder(f: set<nat>, s: set<nat>)
    requires s <= f
    ensures |f - s| == |f| - |s|
  {
    assert f == s + (f - s);
  }

  /** ALLOC_HIGH halves the mark, ALLOC_HARDER takes a quarter off, both rounded up. */
  lemma LoweredMark(mark: nat)
    ensures Lowered(mark, false, false) == mark
    ensures 2 * Lowered(mark, true, false) - mark in {0, 1}
    ensures 0 <= 4 * Lowered(mark, false, true) - 3 * mark < 4
    ensures 0 <= 8 * Lowered(mark, true, true) - 3 * mark < 12
  {}
}
