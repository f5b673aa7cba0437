/** The buddy allocator's state as values: free_area and mem_map, its invariant, and the
    effect of each state-changing step. */
module FreeArea {
  import opened Bits
  import opened Buddy
  import opened FreeLists

  const MIGRATE_UNMOVABLE: nat := 0
  const MIGRATE_RECLAIMABLE: nat := 1
  const MIGRATE_MOVABLE: nat := 2
  const MIGRATE_PCPTYPES: nat := 3
  const MIGRATE_RESERVE: nat := 3
  const MIGRATE_ISOLATE: nat := 4
  const MIGRATE_TYPES: nat := 5

  datatype Page = Page(buddy: bool, priv: nat)

  datatype Area = Area(lists: seq<seq<nat>>, nrFree: int)

  /** free_area[] indexed by order, the zone's part of mem_map indexed by pfn, and the
      migratetype of each pageblock. */
  datatype Core = Core(area: seq<Area>, mm: map<nat, Page>, types: seq<nat>)

  ghost function BlocksOf(mm: map<nat, Page>): Blocks {
    map p | p in mm && mm[p].buddy :: mm[p].priv
  }

  ghost function Free(c: Core): set<nat> {
    set q | q in c.mm && Covers(BlocksOf(c.mm), q)
  }

  function Range(p: nat, n: nat): (s: set<nat>)
    ensures forall q :: q in s <==> p <= q < p + n
    ensures |s| == n
  {
    if n == 0 then {} else Range(p, n - 1) + {p + n - 1}
  }

  function Span(p: nat, o: nat): (s: set<nat>)
    ensures forall q :: q in s <==> Inside(q, p, o)
  {
    Range(p, Pow2(o))
  }

  predicate Shape(c: Core) {
    && |c.area| == MAX_ORDER
    && (forall o :: 0 <= o < MAX_ORDER ==> |c.area[o].lists| == MIGRATE_TYPES)
    && (forall p :: p in c.mm && c.mm[p].buddy ==> c.mm[p].priv < MAX_ORDER)
  }

  /** List entries of order o are exactly the heads of order o, each listed once. */
  ghost predicate Listed(c: Core, o: nat)
    requires o < |c.area|
  {
    forall p :: Mass(c.area[o].lists)[p] ==
                if p in c.mm && c.mm[p].buddy && c.mm[p].priv == o then 1 else 0
  }

  /** The sum of nr_free[o] << o over the orders below n. */
  ghost function FreeCount(area: seq<Area>, n: nat): int
    requires n <= |area|
  {
    if n == 0 then 0 else FreeCount(area, n - 1) + Shl(area[n - 1].nrFree, n - 1)
  }

  ghost predicate AllListed(c: Core)
    requires |c.area| == MAX_ORDER
  {
    forall o :: 0 <= o < MAX_ORDER ==> Listed(c, o) && c.area[o].nrFree == |Mass(c.area[o].lists)|
  }

  /** Every page of every free block exists. */
  ghost predicate Backed(mm: map<nat, Page>) {
    forall q {:trigger Covers(BlocksOf(mm), q)} :: Covers(BlocksOf(mm), q) ==> q in mm
  }

  /** The allocator's representation invariant. */
  ghost predicate Inv(c: Core) {
    && Shape(c)
    && WellFormed(BlocksOf(c.mm))
    && Backed(c.mm)
    && AllListed(c)
    && FreeCount(c.area, |c.area|) == |Free(c)|
  }

  lemma InvShape(c: Core)
    requires Inv(c)
    ensures Shape(c) && WellFormed(BlocksOf(c.mm)) && Backed(c.mm)
    ensures Free(c) <= c.mm.Keys && AllListed(c)
  {}

  lemma InvCount(c: Core)
    requires Inv(c)
    ensures FreeCount(c.area, |c.area|) == |Free(c)|
  {}

  lemma InvHolds(c: Core)
    requires Shape(c) && WellFormed(BlocksOf(c.mm)) && Backed(c.mm) && AllListed(c)
    requires FreeCount(c.area, |c.area|) == |Free(c)|
    ensures Inv(c)
  {}

  // ---------- the elementary steps ----------

  function DecNrFree(c: Core, o: nat): Core
    requires o < |c.area|
  {
    c.(area := c.area[o := c.area[o].(nrFree := c.area[o].nrFree - 1)])
  }

  /** list_del and rmv_page_order. */
  function Drop(c: Core, p: nat, o: nat): Core
    requires o < |c.area|
  {
    c.(area := c.area[o := c.area[o].(lists := Unlink(c.area[o].lists, p))], mm := c.mm[p := Page(false, 0)])
  }

  /** Head p of order o leaves the free lists. */
  function Take(c: Core, p: nat, o: nat): Core
    requires o < |c.area|
  {
    Drop(DecNrFree(c, o), p, o)
  }

  /** Head p of order o joins the front of free list t: set_page_order, list_add, nr_free++. */
  function Put(c: Core, p: nat, o: nat, t: nat): Core
    requires o < |c.area| && t < |c.area[o].lists|
  {
    c.(area := c.area[o := Area(Push(c.area[o].lists, t, p), c.area[o].nrFree + 1)], mm := c.mm[p := Page(true, o)])
  }

  // ---------- counting ----------

  lemma {:induction false} FreeCountStep(a: seq<Area>, b: seq<Area>, n: nat, o: nat, d: int)
    requires n <= |a| == |b| && o < |a|
    requires b[o].nrFree == a[o].nrFree + d
    requires forall i :: 0 <= i < |a| && i != o ==> b[i].nrFree == a[i].nrFree
    ensures FreeCount(b, n) == FreeCount(a, n) + if o < n then Shl(d, o) else 0
  {
    if n > 0 {
      FreeCountStep(a, b, n - 1, o, d);
      ShlAdd(a[o].nrFree, d, o);
    }
  }

  // ---------- Put and Take keep the invariant ----------

  predicate IsHead(mm: map<nat, Page>, p: int, o: nat) {
    p in mm && mm[p].buddy && mm[p].priv == o
  }

  lemma BlocksUpdate(mm: map<nat, Page>, p: nat, o: nat)
    requires p in mm
    ensures BlocksOf(mm[p := Page(true, o)]) == BlocksOf(mm)[p := o]
    ensures BlocksOf(mm[p := Page(false, o)]) == BlocksOf(mm) - {p}
    ensures mm[p := Page(true, o)].Keys == mm[p := Page(false, o)].Keys == mm.Keys
  {}

  lemma PutListed(c: Core, p: nat, o: nat, t: nat)
    requires Shape(c) && AllListed(c) && o < MAX_ORDER && t < MIGRATE_TYPES
    requires p in c.mm && !c.mm[p].buddy
    ensures AllListed(Put(c, p, o, t))
  {
    hide Mass, Push;
    var d := Put(c, p, o, t);
    PushMass(c.area[o].lists, t, p);
    forall i | 0 <= i < MAX_ORDER ensures Listed(d, i) && d.area[i].nrFree == |Mass(d.area[i].lists)| {
      assert Listed(c, i);
      if i == o {
        ListedGains(c, d, p, o);
      } else {
        assert d.area[i] == c.area[i];
      }
    }
  }

  lemma ListedGains(c: Core, d: Core, p: nat, o: nat)
    requires o < |c.area| && o < |d.area| && Listed(c, o) && p in c.mm && !c.mm[p].buddy
    requires d.mm == c.mm[p := Page(true, o)]
    requires Mass(d.area[o].lists) == Mass(c.area[o].lists) + multiset{p}
    ensures Listed(d, o)
  {
    hide Mass;
  }

  lemma PutBlocks(mm: map<nat, Page>, p: nat, o: nat)
    requires WellFormed(BlocksOf(mm)) && Backed(mm) && o < MAX_ORDER && Aligned(p, o)
    requires forall q :: Inside(q, p, o) ==> q in mm && !Covers(BlocksOf(mm), q)
    requires o < MAX_ORDER - 1 ==> !IsHead(mm, BuddyOf(p, o), o)
    ensures p in mm && !mm[p].buddy
    ensures BlocksOf(mm[p := Page(true, o)]) == BlocksOf(mm)[p := o]
    ensures WellFormed(BlocksOf(mm)[p := o]) && Backed(mm[p := Page(true, o)])
    ensures forall q :: Covers(BlocksOf(mm)[p := o], q) <==> Covers(BlocksOf(mm), q) || Inside(q, p, o)
  {
    var b := BlocksOf(mm);
    AddBlock(b, p, o);
    assert Inside(p, p, o);
    BlocksUpdate(mm, p, o);
  }

  lemma SetGrows(f: set<nat>, g: set<nat>, p: nat, o: nat)
    requires forall q: nat :: q in g <==> q in f || Inside(q, p, o)
    requires forall q: nat :: Inside(q, p, o) ==> q !in f
    ensures g == f + Span(p, o) && f == g - Span(p, o) && Span(p, o) <= g
    ensures |g| == |f| + Pow2(o)
  {
    var s := Span(p, o);
    assert f !! s;
    assert g == f + s;
  }

  lemma InFree(c: Core, q: nat)
    requires Backed(c.mm)
    ensures q in Free(c) <==> Covers(BlocksOf(c.mm), q)
  {}

  lemma FreeGrows(c: Core, d: Core, p: nat, o: nat)
    requires Backed(c.mm) && Backed(d.mm)
    requires forall q :: Inside(q, p, o) ==> !Covers(BlocksOf(c.mm), q)
    requires forall q :: Covers(BlocksOf(d.mm), q) <==> Covers(BlocksOf(c.mm), q) || Inside(q, p, o)
    ensures Free(d) == Free(c) + Span(p, o) && Free(c) == Free(d) - Span(p, o) && Span(p, o) <= Free(d)
    ensures |Free(d)| == |Free(c)| + Pow2(o)
  {
    var f, g := Free(c), Free(d);
    forall q: nat ensures q in g <==> q in f || Inside(q, p, o) { InFree(c, q); InFree(d, q); }
    forall q: nat | Inside(q, p, o) ensures q !in f { InFree(c, q); }
    SetGrows(f, g, p, o);
  }

  lemma PutFree(c: Core, d: Core, p: nat, o: nat)
    requires WellFormed(BlocksOf(c.mm)) && Backed(c.mm) && o < MAX_ORDER && Aligned(p, o)
    requires Span(p, o) <= c.mm.Keys - Free(c)
    requires o < MAX_ORDER - 1 ==> !IsHead(c.mm, BuddyOf(p, o), o)
    requires p in c.mm && d.mm == c.mm[p := Page(true, o)]
    ensures !c.mm[p].buddy && WellFormed(BlocksOf(d.mm)) && Backed(d.mm)
    ensures BlocksOf(d.mm) == BlocksOf(c.mm)[p := o] && d.mm.Keys == c.mm.Keys
    ensures Free(d) == Free(c) + Span(p, o) && |Free(d)| == |Free(c)| + Pow2(o)
  {
    forall q | Inside(q, p, o) ensures q in c.mm && !Covers(BlocksOf(c.mm), q) {
      assert q in Span(p, o);
    }
    PutBlocks(c.mm, p, o);
    BlocksUpdate(c.mm, p, o);
    FreeGrows(c, d, p, o);
  }

  lemma PutCount(c: Core, d: Core, p: nat, o: nat)
    requires WellFormed(BlocksOf(c.mm)) && Backed(c.mm) && o < |c.area| == |d.area| == MAX_ORDER && Aligned(p, o)
    requires Span(p, o) <= c.mm.Keys - Free(c)
    requires o < MAX_ORDER - 1 ==> !IsHead(c.mm, BuddyOf(p, o), o)
    requires p in c.mm && d.mm == c.mm[p := Page(true, o)]
    requires d.area[o].nrFree == c.area[o].nrFree + 1
    requires forall i :: 0 <= i < |c.area| && i != o ==> d.area[i].nrFree == c.area[i].nrFree
    requires FreeCount(c.area, |c.area|) == |Free(c)|
    ensures FreeCount(d.area, |d.area|) == |Free(d)|
  {
    FreeCountStep(c.area, d.area, |c.area|, o, 1);
    ShlAdd(0, 0, o);
    PutFree(c, d, p, o);
  }

  lemma PutInv(c: Core, p: nat, o: nat, t: nat)
    requires Inv(c) && o < MAX_ORDER && t < MIGRATE_TYPES && Aligned(p, o) && p in c.mm
    requires Span(p, o) <= c.mm.Keys - Free(c)
    requires o < MAX_ORDER - 1 ==> !IsHead(c.mm, BuddyOf(p, o), o)
    ensures Inv(Put(c, p, o, t))
  {
    hide Inv, Free, Span, WellFormed, Backed, AllListed, Listed, Mass, FreeCount, BlocksOf, IsHead, Aligned;
    InvShape(c);
    InvCount(c);
    var d := Put(c, p, o, t);
    PutFree(c, d, p, o);
    PutCount(c, d, p, o);
    PutListed(c, p, o, t);
    InvHolds(d);
  }

  /** Inserting an aligned block of used pages whose buddy is not free keeps the invariant. */
  lemma PutKeeps(c: Core, p: nat, o: nat, t: nat)
    requires Inv(c) && o < MAX_ORDER && t < MIGRATE_TYPES && Aligned(p, o)
    requires Span(p, o) <= c.mm.Keys - Free(c)
    requires o < MAX_ORDER - 1 ==> !IsHead(c.mm, BuddyOf(p, o), o)
    ensures Inv(Put(c, p, o, t))
    ensures Free(Put(c, p, o, t)) == Free(c) + Span(p, o)
    ensures BlocksOf(Put(c, p, o, t).mm) == BlocksOf(c.mm)[p := o]
    ensures Put(c, p, o, t).mm.Keys == c.mm.Keys
  {
    assert p in Span(p, o);
    PutFree(c, Put(c, p, o, t), p, o);
    PutInv(c, p, o, t);
  }

  lemma DropBlocks(mm: map<nat, Page>, p: nat, o: nat)
    requires WellFormed(BlocksOf(mm)) && Backed(mm) && IsHead(mm, p, o)
    ensures BlocksOf(mm[p := Page(false, 0)]) == BlocksOf(mm) - {p}
    ensures WellFormed(BlocksOf(mm) - {p}) && Backed(mm[p := Page(false, 0)])
    ensures forall q :: Covers(BlocksOf(mm) - {p}, q) <==> Covers(BlocksOf(mm), q) && !Inside(q, p, o)
    ensures forall q :: Inside(q, p, o) ==> Covers(BlocksOf(mm), q) && q in mm
    ensures Aligned(p, o) && o < MAX_ORDER
  {
    var b := BlocksOf(mm);
    assert p in b && b[p] == o;
    RemoveBlock(b, p);
    forall q | Inside(q, p, o) ensures Covers(b, q) { assert p in b; }
    BlocksUpdate(mm, p, 0);
  }

  lemma DropFree(c: Core, d: Core, p: nat, o: nat)
    requires WellFormed(BlocksOf(c.mm)) && Backed(c.mm) && IsHead(c.mm, p, o)
    requires d.mm == c.mm[p := Page(false, 0)]
    ensures WellFormed(BlocksOf(d.mm)) && Backed(d.mm) && Aligned(p, o) && o < MAX_ORDER
    ensures BlocksOf(d.mm) == BlocksOf(c.mm) - {p} && d.mm.Keys == c.mm.Keys
    ensures Free(d) == Free(c) - Span(p, o) && Span(p, o) <= Free(c) && |Free(d)| == |Free(c)| - Pow2(o)
  {
    DropBlocks(c.mm, p, o);
    BlocksUpdate(c.mm, p, 0);
    FreeGrows(d, c, p, o);
  }

  /** Two states with the same page table whose lists hold the same pages order by order,
      nr_free of order o being one behind in the second. */
  ghost predicate OneBehind(c: Core, d: Core, o: nat) {
    && |c.area| == |d.area| == MAX_ORDER && d.mm == c.mm && o < MAX_ORDER
    && (forall i :: 0 <= i < MAX_ORDER ==>
          && |d.area[i].lists| == |c.area[i].lists|
          && Mass(d.area[i].lists) == Mass(c.area[i].lists)
          && d.area[i].nrFree == c.area[i].nrFree - if i == o then 1 else 0)
  }

  lemma DropListed(c: Core, c1: Core, p: nat, o: nat)
    requires Shape(c) && AllListed(c) && OneBehind(c, c1, o) && IsHead(c.mm, p, o)
    ensures AllListed(Drop(c1, p, o))
  {
    hide Mass, Unlink;
    var d := Drop(c1, p, o);
    UnlinkMass(c1.area[o].lists, p);
    forall i | 0 <= i < MAX_ORDER ensures Listed(d, i) && d.area[i].nrFree == |Mass(d.area[i].lists)| {
      assert Listed(c, i);
      if i == o { ListedLoses(c, d, p, o); } else { assert d.area[i] == c1.area[i]; }
    }
  }

  lemma ListedLoses(c: Core, d: Core, p: nat, o: nat)
    requires o < |c.area| && o < |d.area| && Listed(c, o) && IsHead(c.mm, p, o)
    requires d.mm == c.mm[p := Page(false, 0)]
    requires Mass(d.area[o].lists) == Mass(c.area[o].lists)[p := 0]
    ensures Listed(d, o) && |Mass(d.area[o].lists)| == |Mass(c.area[o].lists)| - 1
  {
    hide Mass;
    var m := Mass(c.area[o].lists);
    assert m[p] == 1;
    assert m == m[p := 0] + multiset{p};
  }

  lemma DropCount(c: Core, d: Core, p: nat, o: nat)
    requires WellFormed(BlocksOf(c.mm)) && Backed(c.mm) && IsHead(c.mm, p, o) && o < |c.area| == |d.area|
    requires d.mm == c.mm[p := Page(false, 0)]
    requires d.area[o].nrFree == c.area[o].nrFree - 1
    requires forall i :: 0 <= i < |c.area| && i != o ==> d.area[i].nrFree == c.area[i].nrFree
    requires FreeCount(c.area, |c.area|) == |Free(c)|
    ensures FreeCount(d.area, |d.area|) == |Free(d)|
  {
    FreeCountStep(c.area, d.area, |c.area|, o, -1);
    ShlAdd(0, 0, o);
    DropFree(c, d, p, o);
  }

  /** Removing a head whose nr_free has already been decremented restores the invariant,
      also when other blocks were moved between lists in the meantime. */
  lemma DropInv(c: Core, c1: Core, p: nat, o: nat)
    requires Inv(c) && OneBehind(c, c1, o) && IsHead(c.mm, p, o)
    ensures Inv(Drop(c1, p, o))
  {
    hide Inv, Free, Span, WellFormed, Backed, AllListed, Listed, Mass, FreeCount, BlocksOf, Aligned;
    InvShape(c);
    InvCount(c);
    var d := Drop(c1, p, o);
    DropFree(c, d, p, o);
    DropCount(c, d, p, o);
    DropListed(c, c1, p, o);
    InvHolds(d);
  }

  lemma DropKeeps(c: Core, c1: Core, p: nat, o: nat)
    requires Inv(c) && OneBehind(c, c1, o) && IsHead(c.mm, p, o)
    ensures Inv(Drop(c1, p, o))
    ensures Free(Drop(c1, p, o)) == Free(c) - Span(p, o) && Span(p, o) <= Free(c)
    ensures BlocksOf(Drop(c1, p, o).mm) == BlocksOf(c.mm) - {p}
    ensures Aligned(p, o) && Drop(c1, p, o).mm.Keys == c.mm.Keys
  {
    DropFree(c, Drop(c1, p, o), p, o);
    DropInv(c, c1, p, o);
  }

  lemma TakeKeeps(c: Core, p: nat, o: nat)
    requires Inv(c) && IsHead(c.mm, p, o)
    ensures o < MAX_ORDER && Inv(Take(c, p, o)) && Aligned(p, o)
    ensures Free(Take(c, p, o)) == Free(c) - Span(p, o) && Span(p, o) <= Free(c)
    ensures BlocksOf(Take(c, p, o).mm) == BlocksOf(c.mm) - {p}
    ensures Take(c, p, o).mm.Keys == c.mm.Keys
  {
    DropKeeps(c, DecNrFree(c, o), p, o);
  }

  /** The first entry of a list is a free head of that order. */
  lemma ListedIsHead(c: Core, o: nat, t: nat, p: nat)
    requires Inv(c) && o < MAX_ORDER && t < MIGRATE_TYPES && p in c.area[o].lists[t]
    ensures IsHead(c.mm, p, o)
  {
    assert Listed(c, o);
    UpdateMass(c.area[o].lists, t, []);
    assert p in multiset(c.area[o].lists[t]);
  }

  lemma SameBlocks(c: Core, d: Core)
    requires c.mm.Keys == d.mm.Keys && BlocksOf(c.mm) == BlocksOf(d.mm)
    ensures Free(c) == Free(d)
  {}

  /** Writing page_private of a page that heads no free block is no buddy matter. */
  lemma PrivateKeeps(c: Core, p: nat, v: nat)
    requires Inv(c) && p in c.mm && !c.mm[p].buddy
    ensures Inv(c.(mm := c.mm[p := Page(false, v)]))
    ensures BlocksOf(c.mm[p := Page(false, v)]) == BlocksOf(c.mm)
    ensures Free(c.(mm := c.mm[p := Page(false, v)])) == Free(c)
  {
    hide Inv, Free, WellFormed, AllListed, Mass, FreeCount;
    InvShape(c);
    InvCount(c);
    var d := c.(mm := c.mm[p := Page(false, v)]);
    BlocksUpdate(c.mm, p, v);
    assert BlocksOf(c.mm) - {p} == BlocksOf(c.mm);
    SameBlocks(c, d);
    PrivateListed(c, p, v);
    InvHolds(d);
  }

  lemma PrivateListed(c: Core, p: nat, v: nat)
    requires |c.area| == MAX_ORDER && AllListed(c) && p in c.mm && !c.mm[p].buddy
    ensures AllListed(c.(mm := c.mm[p := Page(false, v)]))
  {
    hide Mass;
    var d := c.(mm := c.mm[p := Page(false, v)]);
    forall i | 0 <= i < MAX_ORDER ensures Listed(d, i) { assert Listed(c, i); }
  }
}
