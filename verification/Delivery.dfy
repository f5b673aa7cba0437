/** Ordered delivery: single pages split off one large block come out in address order. */
module Delivery {
  import opened Bits
  import opened Buddy
  import opened FreeLists
  import opened FreeArea
  import opened PageAlloc

  /** The free pages are the block of order k at base without its first n pages, all of it on
      the lists of type t. */
  ghost predicate Tail(c: Core, base: nat, k: nat, n: nat, t: nat) {
    && Inv(c) && Shape(c) && k < MAX_ORDER && Aligned(base, k) && t < MIGRATE_TYPES
    && (forall q: nat :: q in Free(c) <==> base + n <= q < base + Pow2(k))
    && OnlyType(c, t)
  }

  ghost predicate OnlyType(c: Core, t: nat)
    requires Shape(c)
  {
    forall o: nat, u: nat :: o < MAX_ORDER && u < MIGRATE_TYPES && u != t ==> c.area[o].lists[u] == []
  }

  lemma TailCovers(c: Core, base: nat, k: nat, n: nat, t: nat, q: int)
    requires Tail(c, base, k, n, t)
    ensures Covers(BlocksOf(c.mm), q) <==> base + n <= q < base + Pow2(k)
  {
    hide Inv, Free, OnlyType;
    InvShape(c);
    if q >= 0 { InFree(c, q); }
  }

  lemma TailRun(c: Core, base: nat, k: nat, n: nat, t: nat, p: nat, o: nat)
    requires Tail(c, base, k, n, t)
    ensures AllCovered(BlocksOf(c.mm), p, o) <==> base + n <= p && p + Pow2(o) <= base + Pow2(k)
  {
    hide Inv, Free, OnlyType;
    forall q: int ensures Covers(BlocksOf(c.mm), q) <==> base + n <= q < base + Pow2(k) {
      TailCovers(c, base, k, n, t, q);
    }
    assert Inside(p, p, o) && Inside(p + Pow2(o) - 1, p, o);
  }

  /** The block at the start of the tail has the smallest order of all free blocks. */
  lemma FirstIsSmallest(c: Core, base: nat, k: nat, n: nat, t: nat, h: nat, p: nat)
    requires Tail(c, base, k, n, t) && base + n == h
    requires var b := BlocksOf(c.mm); h in b && p in b && b[p] <= b[h]
    ensures p == h
  {
    hide Inv, Free, OnlyType, Shape, BlocksOf, Covers, Pow2, Parent, BuddyOf, Bit, AllCovered;
    InvShape(c);
    var b := BlocksOf(c.mm);
    var o := b[p];
    BlockAligned(b, p);
    BlockAligned(b, h);
    EndsCovered(b, p);
    TailCovers(c, base, k, n, t, p);
    TailCovers(c, base, k, n, t, p + Pow2(o) - 1);
    if p != h {
      if o >= k { Pow2Monotone(k, o); }
      assert o < k;
      AlignedDown(h, o, b[h]);
      Nest(h, o, p, o);
      assert h + Pow2(o) <= p;
      ParentSpan(p, o);
      Nest(Parent(p, o), o + 1, base, k);
      TailRun(c, base, k, n, t, Parent(p, o), o + 1);
      BlockParentNotFree(b, p);
    }
  }

  lemma EndsCovered(b: Blocks, p: nat)
    requires p in b
    ensures Covers(b, p) && Covers(b, p + Pow2(b[p]) - 1)
  {
    assert Inside(p, p, b[p]) && Inside(p + Pow2(b[p]) - 1, p, b[p]);
  }

  /** The parent run starts with p or with its buddy below. */
  lemma ParentSpan(p: nat, o: nat)
    requires Aligned(p, o)
    ensures Aligned(Parent(p, o), o + 1) && Pow2(o + 1) == 2 * Pow2(o)
    ensures Parent(p, o) == p || Parent(p, o) + Pow2(o) == p
  {
    Pair(p, o);
  }

  /** The first page of the tail heads a block. */
  lemma FirstHeads(c: Core, base: nat, k: nat, n: nat, t: nat)
    requires Tail(c, base, k, n, t) && n < Pow2(k)
    ensures base + n in BlocksOf(c.mm)
  {
    hide Tail, BlocksOf, Pow2;
    var b := BlocksOf(c.mm);
    TailCovers(c, base, k, n, t, base + n);
    var h :| h in b && Inside(base + n, h, b[h]);
    HeadCovered(b, h);
    TailCovers(c, base, k, n, t, h);
    assert h == base + n;
  }

  lemma HeadCovered(b: Blocks, h: nat)
    requires h in b
    ensures Covers(b, h)
  {
    assert Inside(h, h, b[h]);
  }

  lemma ListedUnder(c: Core, h: nat, t: nat)
    requires Inv(c) && Shape(c) && OnlyType(c, t) && t < MIGRATE_TYPES && h in c.mm && c.mm[h].buddy
    ensures c.mm[h].priv < MAX_ORDER && h in c.area[c.mm[h].priv].lists[t]
  {
    hide Inv, Free, WellFormed, Mass;
    InvShape(c);
    var o := c.mm[h].priv;
    assert Listed(c, o);
    var u := OnSomeList(c.area[o].lists, h);
    assert u == t;
  }

  /** The first page of the tail heads a block, which is on the lists of type t. */
  lemma FirstIsListed(c: Core, base: nat, k: nat, n: nat, t: nat)
    requires Tail(c, base, k, n, t) && n < Pow2(k)
    ensures base + n in c.mm && IsHead(c.mm, base + n, c.mm[base + n].priv) && c.mm[base + n].priv < MAX_ORDER
    ensures base + n in c.area[c.mm[base + n].priv].lists[t]
  {
    hide Inv, Free, Shape, OnlyType, Pow2;
    FirstHeads(c, base, k, n, t);
    ListedUnder(c, base + n, t);
  }

  lemma {:induction false} ExpandOthers(c: Core, p: nat, low: nat, high: nat, t: nat)
    requires Shape(c) && low <= high < MAX_ORDER && t < MIGRATE_TYPES && OnlyType(c, t)
    requires Shape(Expand(c, p, low, high, t))
    ensures OnlyType(Expand(c, p, low, high, t), t)
    decreases high
  {
    if high > low { ExpandOthers(Put(c, p + Pow2(high - 1), high - 1, t), p, low, high - 1, t); }
  }

  /** The request finds the first block of the tail. */
  lemma FindsFirst(c: Core, base: nat, k: nat, n: nat, t: nat)
    requires Tail(c, base, k, n, t) && n < Pow2(k)
    ensures var co := SmallestOrder(c.area, 0, t); co < MAX_ORDER && c.area[co].lists[t][0] == base + n
  {
    hide Inv, Free, WellFormed, Backed, AllListed, Listed, Inside, Covers, OnlyType;
    FirstIsListed(c, base, k, n, t);
    var co := SmallestOrder(c.area, 0, t);
    assert co <= c.mm[base + n].priv;
    var p := c.area[co].lists[t][0];
    ListedIsHead(c, co, t, p);
    FirstIsSmallest(c, base, k, n, t, base + n, p);
  }

  lemma CarveOthers(c: Core, p: nat, co: nat, t: nat)
    requires Shape(c) && co < MAX_ORDER && t < MIGRATE_TYPES && OnlyType(c, t)
    requires Shape(Carve(c, p, 0, co, t))
    ensures OnlyType(Carve(c, p, 0, co, t), t)
  {
    var e := Take(c, p, co);
    assert OnlyType(e, t);
    ExpandOthers(e, p, 0, co, t);
  }

  /** One page: the first of the tail. */
  lemma NextPage(c: Core, base: nat, k: nat, n: nat, t: nat)
    requires Tail(c, base, k, n, t) && n < Pow2(k)
    ensures var (r, d) := RmSmallest(c, 0, t);
            && r == Some(base + n) && Tail(d, base, k, n + 1, t)
            && Allocated(c, d, base + n, 0) && d.types == c.types
  {
    hide Inv, Free, Span, WellFormed, Backed, AllListed, Listed, Inside, Covers, Carve, OnlyType, SmallestOrder;
    FindsFirst(c, base, k, n, t);
    RmSmallestKeeps(c, 0, t);
    var d := RmSmallest(c, 0, t).1;
    InvShape(d);
    OnePage(base + n);
    assert Free(d) == Free(c) - {base + n};
    CarveOthers(c, base + n, SmallestOrder(c.area, 0, t), t);
  }

  /** The free blocks are the aligned decomposition of the tail: the aligned runs that lie in the
      tail but whose parent does not. */
  lemma TailDecomposition(c: Core, base: nat, k: nat, n: nat, t: nat, p: nat, o: nat)
    requires Tail(c, base, k, n, t)
    ensures IsHead(c.mm, p, o) <==>
            && o < MAX_ORDER && Aligned(p, o) && base + n <= p && p + Pow2(o) <= base + Pow2(k)
            && (o < MAX_ORDER - 1 ==> !(base + n <= Parent(p, o) && Parent(p, o) + Pow2(o + 1) <= base + Pow2(k)))
  {
    hide Inv, Free, OnlyType, AllCovered, Parent;
    InvShape(c);
    MaximalBlocks(BlocksOf(c.mm), p, o);
    TailRun(c, base, k, n, t, p, o);
    TailRun(c, base, k, n, t, Parent(p, o), o + 1);
  }

  lemma OnePage(p: nat)
    ensures Span(p, 0) == {p}
  {
    assert forall q :: q in Span(p, 0) <==> Inside(q, p, 0);
  }

  /** One turn of the refill: the first page of the tail, kept aside with its type noted. */
  lemma RefillTurn(c: Core, z: Zoning, base: nat, k: nat, n: nat, m: nat, t: nat) returns (e: Core)
    requires Ready(c, z) && Tail(c, base, k, n, t) && n + m <= Pow2(k) && m > 0
    ensures Ready(e, z) && Tail(e, base, k, n + 1, t)
    ensures Refill(c, z, m, t) == ([base + n] + Refill(e, z, m - 1, t).0, Refill(e, z, m - 1, t).1)
  {
    hide Inv, Free, Typed, WellFormed, Backed, AllListed, Span, RmSmallest;
    NextPage(c, base, k, n, t);
    RmqueueKeeps(c, z, 0, t);
    var (r, d) := Rmqueue(c, z, 0, t);
    var p := base + n;
    PrivateKeeps(d, p, t);
    e := d.(mm := d.mm[p := Page(false, t)]);
    TypedSame(d, e, z);
  }

  /** Successive single-page requests return the pages of the tail one after another, and what is
      left free is again the tail. */
  lemma {:induction false} OrderedDelivery(c: Core, z: Zoning, base: nat, k: nat, n: nat, m: nat, t: nat)
    requires Ready(c, z) && Tail(c, base, k, n, t) && n + m <= Pow2(k)
    ensures Refill(c, z, m, t).0 == seq(m, i requires 0 <= i < m => base + n + i)
    ensures Tail(Refill(c, z, m, t).1, base, k, n + m, t)
    decreases m
  {
    hide Ready, Tail, Refill;
    TailType(c, base, k, n, t);
    if m == 0 {
      RefillNone(c, z, t);
    } else {
      var e := RefillTurn(c, z, base, k, n, m, t);
      OrderedDelivery(e, z, base, k, n + 1, m - 1, t);
      assert [base + n] + Refill(e, z, m - 1, t).0 == seq(m, i requires 0 <= i < m => base + n + i);
    }
  }

  lemma TailType(c: Core, base: nat, k: nat, n: nat, t: nat)
    requires Tail(c, base, k, n, t)
    ensures t < MIGRATE_TYPES
  {}

  lemma RefillNone(c: Core, z: Zoning, t: nat)
    requires Ready(c, z) && t < MIGRATE_TYPES
    ensures Refill(c, z, 0, t) == ([], c)
  {}
}
