/** What each buddy-allocator operation does to the allocator's state, and what it preserves. */
module PageAlloc {
  import opened Bits
  import opened Buddy
  import opened FreeLists
  import opened FreeArea

  datatype Option<T> = None | Some(value: T)

  // ---------- freeing: __free_one_page ----------

  function Lower(p: nat, q: int): (r: nat)
    ensures r == p || r == q
  {
    if 0 <= q < p then q else p
  }

  /** The block p of order o joins list t, after merging with free buddies as far up as they go. */
  function FreeOne(c: Core, p: nat, o: nat, t: nat): Core
    requires |c.area| == MAX_ORDER && o < MAX_ORDER
    requires forall i :: 0 <= i < MAX_ORDER ==> t < |c.area[i].lists|
    decreases MAX_ORDER - o
  {
    var twin := BuddyOf(p, o);
    if o < MAX_ORDER - 1 && IsHead(c.mm, twin, o) then
      FreeOne(Take(c, twin, o), Lower(p, twin), o + 1, t)
    else
      Put(c, p, o, t)
  }

  lemma SpanSplit(p: nat, o: nat)
    ensures Span(p, o + 1) == Span(p, o) + Span(p + Pow2(o), o)
    ensures Span(p, o) !! Span(p + Pow2(o), o)
  {}

  lemma TwinSpans(p: nat, o: nat)
    requires Aligned(p, o)
    ensures BuddyOf(p, o) >= 0
    ensures Aligned(Lower(p, BuddyOf(p, o)), o + 1)
    ensures Span(Lower(p, BuddyOf(p, o)), o + 1) == Span(p, o) + Span(BuddyOf(p, o), o)
    ensures Span(p, o) !! Span(BuddyOf(p, o), o)
  {
    hide Span;
    Pair(p, o);
    if Bit(p, o) { SpanSplit(p - Pow2(o), o); } else { SpanSplit(p, o); }
  }

  /** Merging with a free buddy: the buddy's pages stop being free, and the combined block is
      an aligned block of pages that are not free. */
  lemma MergeStep(c: Core, p: nat, o: nat)
    requires Inv(c) && o < MAX_ORDER - 1 && Aligned(p, o) && IsHead(c.mm, BuddyOf(p, o), o)
    requires Span(p, o) <= c.mm.Keys - Free(c)
    ensures var twin, d := BuddyOf(p, o), Take(c, BuddyOf(p, o), o);
            && twin >= 0 && Inv(d) && Shape(d) && d.mm.Keys == c.mm.Keys
            && Aligned(Lower(p, twin), o + 1)
            && Span(Lower(p, twin), o + 1) <= d.mm.Keys - Free(d)
            && Free(d) + Span(Lower(p, twin), o + 1) == Free(c) + Span(p, o)
  {
    hide Inv, Free, Span, BuddyOf, IsHead, Aligned, Bit, Inside, Take, WellFormed, Backed, AllListed, BlocksOf, Pow2, Lower, FreeCount;
    InvShape(c);
    TwinSpans(p, o);
    TakeKeeps(c, BuddyOf(p, o), o);
    InvShape(Take(c, BuddyOf(p, o), o));
    MergedSpan(Free(c), c.mm.Keys, Span(p, o), Span(BuddyOf(p, o), o));
  }

  lemma MergedSpan(f: set<nat>, ks: set<nat>, a: set<nat>, b: set<nat>)
    requires a <= ks - f && b <= f <= ks
    ensures a + b <= ks - (f - b) && (f - b) + (a + b) == f + a
  {}

  /** Freeing keeps the invariant, and adds exactly the freed pages to the free pages. */
  lemma {:induction false} FreeOneKeeps(c: Core, p: nat, o: nat, t: nat)
    requires Inv(c) && o < MAX_ORDER && t < MIGRATE_TYPES && Aligned(p, o)
    requires Span(p, o) <= c.mm.Keys - Free(c)
    ensures Inv(FreeOne(c, p, o, t))
    ensures Free(FreeOne(c, p, o, t)) == Free(c) + Span(p, o)
    ensures FreeOne(c, p, o, t).mm.Keys == c.mm.Keys && FreeOne(c, p, o, t).types == c.types
    decreases MAX_ORDER - o
  {
    hide Inv, Free, Span, BuddyOf, IsHead, Aligned, Bit, Inside;
    InvShape(c);
    var twin := BuddyOf(p, o);
    if o < MAX_ORDER - 1 && IsHead(c.mm, twin, o) {
      MergeStep(c, p, o);
      FreeOneKeeps(Take(c, twin, o), Lower(p, twin), o + 1, t);
    } else {
      PutKeeps(c, p, o, t);
    }
  }

  /** Freeing writes no page outside the free pages and the freed block. */
  lemma {:induction false} FreeOneFrame(c: Core, p: nat, o: nat, t: nat, q: nat)
    requires Inv(c) && o < MAX_ORDER && t < MIGRATE_TYPES && Aligned(p, o)
    requires Span(p, o) <= c.mm.Keys - Free(c)
    requires q in c.mm && q !in Free(c) && q !in Span(p, o)
    ensures q in FreeOne(c, p, o, t).mm && FreeOne(c, p, o, t).mm[q] == c.mm[q]
    decreases MAX_ORDER - o
  {
    hide Inv, Free, Span, BuddyOf, IsHead, Aligned, Bit, Inside;
    InvShape(c);
    var twin := BuddyOf(p, o);
    if o < MAX_ORDER - 1 && IsHead(c.mm, twin, o) {
      MergeStep(c, p, o);
      HeadIsFree(c, twin, o);
      FreeOneFrame(Take(c, twin, o), Lower(p, twin), o + 1, t, q);
    } else {
      StartInside(p, o);
    }
  }

  lemma StartInside(p: nat, o: nat)
    ensures p in Span(p, o)
  {
    assert Inside(p, p, o);
  }

  lemma HeadIsFree(c: Core, p: nat, o: nat)
    requires Inv(c) && IsHead(c.mm, p, o)
    ensures p in Free(c)
  {
    hide Inv, Free;
    InvShape(c);
    TakeKeeps(c, p, o);
    StartInside(p, o);
  }

  // ---------- splitting: expand ----------

  function Expand(c: Core, p: nat, low: nat, high: nat, t: nat): Core
    requires |c.area| == MAX_ORDER && low <= high < MAX_ORDER
    requires forall i :: 0 <= i < MAX_ORDER ==> t < |c.area[i].lists|
    decreases high
  {
    if high > low then Expand(Put(c, p + Pow2(high - 1), high - 1, t), p, low, high - 1, t) else c
  }

  lemma ExpandTurn(c: Core, p: nat, low: nat, high: nat, t: nat)
    requires Shape(c) && low < high < MAX_ORDER && t < MIGRATE_TYPES
    ensures var e := Put(c, p + Pow2(high - 1), high - 1, t);
            Shape(e) && e.types == c.types && Expand(c, p, low, high, t) == Expand(e, p, low, high - 1, t)
    ensures Pow2(high) / 2 == Pow2(high - 1)
  {}

  lemma TakeShape(c: Core, p: nat, o: nat)
    requires Shape(c) && o < MAX_ORDER
    ensures Shape(Take(c, p, o))
  {}

  lemma ExpandNone(c: Core, p: nat, o: nat, t: nat)
    requires Inv(c) && o < MAX_ORDER && t < MIGRATE_TYPES
    ensures Expand(c, p, o, o, t) == c
  {}

  lemma Regroup(f: set<nat>, a: set<nat>, b: set<nat>, l: set<nat>)
    requires l <= a && a !! b
    ensures f + b + (a - l) == f + (a + b - l)
  {}

  lemma NotHead(c: Core, p: nat, o: nat, u: nat)
    requires Inv(c) && Span(p, u) <= c.mm.Keys - Free(c)
    ensures !IsHead(c.mm, p, o)
  {
    hide Inv;
    InvShape(c);
    if IsHead(c.mm, p, o) {
      assert p in BlocksOf(c.mm);
      assert Inside(p, p, o) && Inside(p, p, u);
      InFree(c, p);
      assert false;
    }
  }

  /** Splitting returns everything above the first 2^low pages to the free lists. */
  lemma {:induction false} ExpandKeeps(c: Core, p: nat, low: nat, high: nat, t: nat)
    requires Inv(c) && low <= high < MAX_ORDER && t < MIGRATE_TYPES && Aligned(p, high)
    requires Span(p, high) <= c.mm.Keys - Free(c)
    ensures Inv(Expand(c, p, low, high, t))
    ensures Free(Expand(c, p, low, high, t)) == Free(c) + (Span(p, high) - Span(p, low))
    ensures Expand(c, p, low, high, t).mm.Keys == c.mm.Keys && Expand(c, p, low, high, t).types == c.types
    ensures Aligned(p, low) && Span(p, low) <= Span(p, high)
    decreases high
  {
    hide Inv, Free, Span, BuddyOf, IsHead, Aligned, Bit, Inside, Put, Expand, Pow2, WellFormed, Backed, AllListed, BlocksOf;
    if high == low {
      ExpandNone(c, p, low, t);
    } else {
      var h := high - 1;
      InvShape(c);
      ExpandTurn(c, p, low, high, t);
      Halves(p, h);
      SpanSplit(p, h);
      var q := p + Pow2(h);
      NotHead(c, p, h, high);
      PutKeeps(c, q, h, t);
      ExpandKeeps(Put(c, q, h, t), p, low, h, t);
      Regroup(Free(c), Span(p, h), Span(q, h), Span(p, low));
    }
  }

  /** expand does not touch the first 2^low pages, nor any page outside the block. */
  lemma {:induction false} ExpandFrame(c: Core, p: nat, low: nat, high: nat, t: nat, q: nat)
    requires |c.area| == MAX_ORDER && low <= high < MAX_ORDER && q in c.mm
    requires forall i :: 0 <= i < MAX_ORDER ==> t < |c.area[i].lists|
    requires q < p + Pow2(low) || q >= p + Pow2(high)
    ensures q in Expand(c, p, low, high, t).mm && Expand(c, p, low, high, t).mm[q] == c.mm[q]
    decreases high
  {
    if high > low {
      Pow2Monotone(low, high - 1);
      ExpandFrame(Put(c, p + Pow2(high - 1), high - 1, t), p, low, high - 1, t, q);
    }
  }

  // ---------- allocation from one migratetype: __rmqueue_smallest ----------

  /** The smallest order from o up with an entry on list t, or MAX_ORDER. */
  function SmallestOrder(area: seq<Area>, o: nat, t: nat): (r: nat)
    requires |area| == MAX_ORDER && forall i :: 0 <= i < MAX_ORDER ==> t < |area[i].lists|
    ensures r < MAX_ORDER ==> o <= r && area[r].lists[t] != []
    ensures forall i :: o <= i < r && i < MAX_ORDER ==> area[i].lists[t] == []
    decreases MAX_ORDER - o
  {
    if o >= MAX_ORDER then MAX_ORDER
    else if area[o].lists[t] != [] then o
    else SmallestOrder(area, o + 1, t)
  }

  /** Head p of order co is taken off its list, and split down to the wanted order. */
  function Carve(c: Core, p: nat, order: nat, co: nat, t: nat): Core
    requires |c.area| == MAX_ORDER && order <= co < MAX_ORDER
    requires forall i :: 0 <= i < MAX_ORDER ==> t < |c.area[i].lists|
  {
    Expand(Take(c, p, co), p, order, co, t)
  }

  function RmSmallest(c: Core, order: nat, t: nat): (Option<nat>, Core)
    requires Shape(c) && t < MIGRATE_TYPES
  {
    var co := SmallestOrder(c.area, order, t);
    if co < MAX_ORDER then
      var p := c.area[co].lists[t][0];
      (Some(p), Carve(c, p, order, co, t))
    else
      (None, c)
  }

  /** What every successful allocation guarantees: an aligned run of 2^order free pages leaves the
      free pages and nothing else does, and its first page is no longer a free head. */
  ghost predicate Allocated(c: Core, d: Core, p: nat, order: nat) {
    && Inv(d)
    && Aligned(p, order)
    && Span(p, order) <= Free(c) && Free(d) == Free(c) - Span(p, order)
    && d.mm.Keys == c.mm.Keys
    && p in d.mm && d.mm[p] == Page(false, 0)
    && (forall q :: q in c.mm && q !in Free(c) ==> d.mm[q] == c.mm[q])
  }

  lemma CarveAllocates(c: Core, c1: Core, p: nat, order: nat, co: nat, t: nat)
    requires Inv(c) && OneBehind(c, c1, co) && IsHead(c.mm, p, co) && order <= co && t < MIGRATE_TYPES
    ensures Allocated(c, Expand(Drop(c1, p, co), p, order, co, t), p, order)
    ensures Expand(Drop(c1, p, co), p, order, co, t).types == c1.types
  {
    hide Inv, Free, Span, Inside, WellFormed, Backed, AllListed, Listed, Put, Expand, Pow2, Aligned, BlocksOf;
    InvShape(c);
    DropKeeps(c, c1, p, co);
    var d := Drop(c1, p, co);
    InvShape(d);
    ExpandKeeps(d, p, order, co, t);
    ExpandFrame(d, p, order, co, t, p);
    forall q | q in c.mm && q !in Free(c) ensures Expand(d, p, order, co, t).mm[q] == c.mm[q] {
      OutsideSpan(c, p, co, q);
      ExpandFrame(d, p, order, co, t, q);
    }
    InnerSpan(Span(p, co), Span(p, order), Free(c), Free(d));
  }

  lemma InnerSpan(a: set<nat>, b: set<nat>, f: set<nat>, g: set<nat>)
    requires b <= a <= f && g == f - a
    ensures g + (a - b) == f - b
  {}

  lemma OutsideSpan(c: Core, p: nat, o: nat, q: nat)
    requires Span(p, o) <= Free(c) && q !in Free(c)
    ensures q < p || q >= p + Pow2(o)
  {
    assert Inside(q, p, o) ==> q in Span(p, o);
  }

  lemma RmSmallestKeeps(c: Core, order: nat, t: nat)
    requires Inv(c) && t < MIGRATE_TYPES
    ensures RmSmallest(c, order, t).0.None? <==> forall o :: order <= o < MAX_ORDER ==> c.area[o].lists[t] == []
    ensures var (r, d) := RmSmallest(c, order, t);
            match r
            case None => d == c
            case Some(p) => Allocated(c, d, p, order) && d.types == c.types
  {
    hide Inv, Free, Span, Allocated, Expand, Drop;
    InvShape(c);
    var co := SmallestOrder(c.area, order, t);
    if co < MAX_ORDER {
      var p := c.area[co].lists[t][0];
      ListedIsHead(c, co, t, p);
      CarveAllocates(c, DecNrFree(c, co), p, order, co, t);
    }
  }

  // ---------- relabelling: move_freepages ----------

  /** What the zone was set up with. */
  datatype Zoning = Zoning(startPfn: nat, spanned: nat, pageblockOrder: nat, ungrouped: bool)

  /** list_del and list_add: head p of order o moves to the front of list t of its order. */
  function Relist(c: Core, p: nat, o: nat, t: nat): Core
    requires Shape(c) && o < MAX_ORDER && t < MIGRATE_TYPES
  {
    c.(area := c.area[o := c.area[o].(lists := Push(Unlink(c.area[o].lists, p), t, p))])
  }

  /** The free blocks with a head in first..last move to list t; the pages moved are counted. */
  function MoveRange(c: Core, first: nat, last: nat, t: nat): (r: (Core, nat))
    requires Shape(c) && t < MIGRATE_TYPES
    ensures r.0.mm == c.mm && r.0.types == c.types && Shape(r.0)
    decreases last + 1 - first
  {
    if first > last then (c, 0)
    else if first !in c.mm || !c.mm[first].buddy then MoveRange(c, first + 1, last, t)
    else
      var o := c.mm[first].priv;
      var (d, n) := MoveRange(Relist(c, first, o, t), first + Pow2(o), last, t);
      (d, n + Pow2(o))
  }

  lemma MoveRangeTurn(c: Core, first: nat, last: nat, t: nat)
    requires Shape(c) && t < MIGRATE_TYPES && first <= last
    ensures first !in c.mm || !c.mm[first].buddy ==> MoveRange(c, first, last, t) == MoveRange(c, first + 1, last, t)
    ensures first in c.mm && c.mm[first].buddy ==>
              var o := c.mm[first].priv;
              && o < MAX_ORDER
              && var d := Relist(c, first, o, t);
              && Shape(d) && d.mm == c.mm
              && var r := MoveRange(d, first + Pow2(o), last, t);
                 MoveRange(c, first, last, t) == (r.0, r.1 + Pow2(o))
  {}

  lemma MoveRangeNone(c: Core, first: nat, last: nat, t: nat)
    requires Shape(c) && t < MIGRATE_TYPES && first > last
    ensures MoveRange(c, first, last, t) == (c, 0)
  {}

  ghost predicate SameMass(c: Core, d: Core)
    requires |c.area| == |d.area|
  {
    && d.mm == c.mm
    && forall i :: 0 <= i < |c.area| ==>
         && |d.area[i].lists| == |c.area[i].lists| && d.area[i].nrFree == c.area[i].nrFree
         && Mass(d.area[i].lists) == Mass(c.area[i].lists)
  }

  /** Each head is on the list of its order, once; nr_free is not mentioned. */
  ghost predicate ListsHeads(c: Core)
    requires |c.area| == MAX_ORDER
  {
    forall o :: 0 <= o < MAX_ORDER ==> Listed(c, o)
  }

  lemma RelistMass(c: Core, p: nat, o: nat, t: nat)
    requires Shape(c) && ListsHeads(c) && IsHead(c.mm, p, o) && t < MIGRATE_TYPES && o < MAX_ORDER
    ensures SameMass(c, Relist(c, p, o, t)) && ListsHeads(Relist(c, p, o, t))
  {
    hide Mass, Unlink;
    var d := Relist(c, p, o, t);
    UnlinkMass(c.area[o].lists, p);
    PushMass(Unlink(c.area[o].lists, p), t, p);
    assert Mass(d.area[o].lists) == Mass(c.area[o].lists) by {
      assert Listed(c, o);
      var m := Mass(c.area[o].lists);
      assert m[p] == 1;
      assert m[p := 0] + multiset{p} == m;
    }
    forall i | 0 <= i < MAX_ORDER ensures Listed(d, i) { assert Listed(c, i); }
  }

  lemma {:induction false} MoveRangeMass(c: Core, first: nat, last: nat, t: nat)
    requires Shape(c) && ListsHeads(c) && t < MIGRATE_TYPES
    ensures SameMass(c, MoveRange(c, first, last, t).0)
    decreases last + 1 - first
  {
    hide MoveRange, Relist, ListsHeads, Mass;
    if first > last {
      MoveRangeNone(c, first, last, t);
      return;
    }
    MoveRangeTurn(c, first, last, t);
    if first !in c.mm || !c.mm[first].buddy {
      MoveRangeMass(c, first + 1, last, t);
    } else {
      var o := c.mm[first].priv;
      RelistMass(c, first, o, t);
      MoveRangeMass(Relist(c, first, o, t), first + Pow2(o), last, t);
    }
  }

  lemma WithoutOthers(s: seq<nat>, p: nat, h: nat)
    ensures h in Without(s, p) <==> h in s && h != p
  {
    WithoutMass(s, p);
    assert h in Without(s, p) <==> h in multiset(Without(s, p));
    assert h in s <==> h in multiset(s);
  }

  lemma RelistLists(c: Core, p: nat, o: nat, t: nat, oh: nat, u: nat, h: nat)
    requires Shape(c) && o < MAX_ORDER && t < MIGRATE_TYPES && oh < MAX_ORDER && u < MIGRATE_TYPES
    ensures h in Relist(c, p, o, t).area[oh].lists[u] <==>
            if h == p && oh == o then u == t else h in c.area[oh].lists[u]
  {
    WithoutOthers(c.area[o].lists[u], p, h);
  }

  /** After move_freepages a free head is on the requested list if it lies in the range, and where
      it was otherwise. */
  lemma {:induction false} MoveRangeLists(c: Core, first: nat, last: nat, t: nat, h: nat, u: nat)
    requires Shape(c) && WellFormed(BlocksOf(c.mm)) && t < MIGRATE_TYPES && u < MIGRATE_TYPES
    requires h in c.mm && c.mm[h].buddy
    ensures h in MoveRange(c, first, last, t).0.area[c.mm[h].priv].lists[u] <==>
            if first <= h <= last then u == t else h in c.area[c.mm[h].priv].lists[u]
    decreases last + 1 - first
  {
    hide WellFormed, MoveRange, Relist;
    if first > last {
      MoveRangeNone(c, first, last, t);
      return;
    }
    MoveRangeTurn(c, first, last, t);
    if first !in c.mm || !c.mm[first].buddy {
      MoveRangeLists(c, first + 1, last, t, h, u);
    } else {
      var o := c.mm[first].priv;
      RelistLists(c, first, o, t, c.mm[h].priv, u, h);
      if h != first { HeadsApart(BlocksOf(c.mm), first, h); }
      MoveRangeLists(Relist(c, first, o, t), first + Pow2(o), last, t, h, u);
    }
  }

  lemma HeadsApart(b: Blocks, p: nat, h: nat)
    requires WellFormed(b) && p in b && h in b && p != h
    ensures h < p || p + Pow2(b[p]) <= h
  {
    assert Apart(p, b[p], h, b[h]);
  }

  /** The pages of the free blocks headed in first..last. */
  ghost function HeadedIn(mm: map<nat, Page>, first: nat, last: nat): set<nat>
    decreases last + 1 - first
  {
    if first > last then {}
    else (if first in mm && mm[first].buddy then Span(first, mm[first].priv) else {}) + HeadedIn(mm, first + 1, last)
  }

  lemma {:induction false} HeadedFrom(mm: map<nat, Page>, first: nat, from: nat, last: nat)
    requires first <= from
    requires forall h :: first <= h < from && h in mm ==> !mm[h].buddy
    ensures HeadedIn(mm, first, last) == HeadedIn(mm, from, last)
    decreases from
  {
    if first < from {
      HeadedFrom(mm, first, from - 1, last);
    }
  }

  lemma {:induction false} HeadedAbove(mm: map<nat, Page>, first: nat, last: nat, q: nat)
    requires q in HeadedIn(mm, first, last)
    ensures q >= first
    decreases last + 1 - first
  {
    if first <= last && q in HeadedIn(mm, first + 1, last) { HeadedAbove(mm, first + 1, last, q); }
  }

  /** A head's pages count once, and the next head can only be past them. */
  lemma HeadedTurn(c: Core, first: nat, last: nat)
    requires WellFormed(BlocksOf(c.mm)) && first <= last && first in c.mm && c.mm[first].buddy
    ensures var o := c.mm[first].priv;
            |HeadedIn(c.mm, first, last)| == Pow2(o) + |HeadedIn(c.mm, first + Pow2(o), last)|
  {
    hide WellFormed, Span, Pow2, BlocksOf, HeadedIn;
    HeadedHere(c.mm, first, last);
    var o := c.mm[first].priv;
    var next := first + Pow2(o);
    forall h | first + 1 <= h < next && h in c.mm ensures !c.mm[h].buddy {
      if c.mm[h].buddy { NextHead(c, first, h); }
    }
    HeadedFrom(c.mm, first + 1, next, last);
    var s, r := Span(first, o), HeadedIn(c.mm, next, last);
    assert s !! r by {
      forall q | q in s ensures q !in r {
        InSpan(first, o, q);
        if q in r { HeadedAbove(c.mm, next, last, q); }
      }
    }
    CardSpan(first, o);
  }

  lemma HeadedHere(mm: map<nat, Page>, first: nat, last: nat)
    requires first <= last && first in mm && mm[first].buddy
    ensures HeadedIn(mm, first, last) == Span(first, mm[first].priv) + HeadedIn(mm, first + 1, last)
  {}

  lemma NextHead(c: Core, p: nat, h: nat)
    requires WellFormed(BlocksOf(c.mm)) && p in c.mm && c.mm[p].buddy && h in c.mm && c.mm[h].buddy && p < h
    ensures p + Pow2(c.mm[p].priv) <= h
  {
    HeadsApart(BlocksOf(c.mm), p, h);
  }

  lemma InSpan(p: nat, o: nat, q: nat)
    requires q in Span(p, o)
    ensures q < p + Pow2(o)
  {}

  /** move_freepages returns the number of pages it moved. */
  lemma {:induction false} MoveRangeCount(c: Core, first: nat, last: nat, t: nat)
    requires Shape(c) && WellFormed(BlocksOf(c.mm)) && t < MIGRATE_TYPES
    ensures MoveRange(c, first, last, t).1 == |HeadedIn(c.mm, first, last)|
    decreases last + 1 - first
  {
    hide WellFormed, Span, MoveRange, Relist, Shape, BlocksOf;
    if first > last {
      MoveRangeNone(c, first, last, t);
      return;
    }
    MoveRangeTurn(c, first, last, t);
    if first !in c.mm || !c.mm[first].buddy {
      MoveRangeCount(c, first + 1, last, t);
    } else {
      var o := c.mm[first].priv;
      MoveRangeCount(Relist(c, first, o, t), first + Pow2(o), last, t);
      HeadedTurn(c, first, last);
    }
  }

  lemma CardSpan(p: nat, o: nat)
    ensures |Span(p, o)| == Pow2(o)
  {}

  /** The whole pageblock of p, clipped at the zone's start and given up at its end. */
  function MoveBlock(c: Core, z: Zoning, p: nat, t: nat): (r: (Core, nat))
    requires Shape(c) && t < MIGRATE_TYPES
    ensures r.0.mm == c.mm && r.0.types == c.types && Shape(r.0)
  {
    var first := AndNot(p, Pow2(z.pageblockOrder) - 1);
    var last := first + Pow2(z.pageblockOrder) - 1;
    if last >= z.startPfn + z.spanned then (c, 0)
    else MoveRange(c, if first < z.startPfn then p else first, last, t)
  }

  /** Head h is moved with p's pageblock: it lies in the same aligned run of page frames, the run ends
      inside the zone, and where the run starts before the zone h is not before p. */
  predicate MovesWith(z: Zoning, p: nat, h: nat) {
    && Shr(h, z.pageblockOrder) == Shr(p, z.pageblockOrder)
    && Shl(Shr(p, z.pageblockOrder), z.pageblockOrder) + Pow2(z.pageblockOrder) <= z.startPfn + z.spanned
    && (z.startPfn <= Shl(Shr(p, z.pageblockOrder), z.pageblockOrder) || p <= h)
  }

  /** The first page frame move_freepages looks at. */
  function MoveFrom(z: Zoning, p: nat): nat {
    var first := AndNot(p, Pow2(z.pageblockOrder) - 1);
    if first < z.startPfn then p else first
  }

  function MoveTo(z: Zoning, p: nat): nat {
    AndNot(p, Pow2(z.pageblockOrder) - 1) + Pow2(z.pageblockOrder) - 1
  }

  lemma MoveRangeHolds(z: Zoning, p: nat, h: nat)
    ensures MoveTo(z, p) < z.startPfn + z.spanned ==> (MoveFrom(z, p) <= h <= MoveTo(z, p) <==> MovesWith(z, p, h))
    ensures MoveTo(z, p) >= z.startPfn + z.spanned ==> !MovesWith(z, p, h)
  {
    hide AndNot, Shr, Shl, Pow2;
    RunStart(p, z.pageblockOrder);
    RunHolds(Shr(p, z.pageblockOrder), z.pageblockOrder, p);
    RunHolds(Shr(p, z.pageblockOrder), z.pageblockOrder, h);
  }

  lemma MoveBlockRange(c: Core, z: Zoning, p: nat, t: nat)
    requires Shape(c) && t < MIGRATE_TYPES
    ensures MoveBlock(c, z, p, t) ==
            if MoveTo(z, p) >= z.startPfn + z.spanned then (c, 0) else MoveRange(c, MoveFrom(z, p), MoveTo(z, p), t)
  {}

  /** Exactly the free blocks headed in p's pageblock change list. */
  lemma MoveBlockLists(c: Core, z: Zoning, p: nat, t: nat, h: nat, u: nat)
    requires Shape(c) && WellFormed(BlocksOf(c.mm)) && t < MIGRATE_TYPES && u < MIGRATE_TYPES
    requires h in c.mm && c.mm[h].buddy
    ensures h in MoveBlock(c, z, p, t).0.area[c.mm[h].priv].lists[u] <==>
            if MovesWith(z, p, h) then u == t else h in c.area[c.mm[h].priv].lists[u]
  {
    hide MoveBlock, MoveRange, WellFormed, MovesWith, MoveFrom, MoveTo;
    MoveBlockRange(c, z, p, t);
    MoveRangeHolds(z, p, h);
    MoveRangeLists(c, MoveFrom(z, p), MoveTo(z, p), t, h, u);
  }

  /** The free pages that move with p's pageblock. */
  ghost function MovingPages(mm: map<nat, Page>, z: Zoning, p: nat): set<nat> {
    set h, q | h in mm && mm[h].buddy && MovesWith(z, p, h) && q in Span(h, mm[h].priv) :: q
  }

  lemma {:induction false} HeadedBy(mm: map<nat, Page>, first: nat, last: nat, q: nat)
    ensures q in HeadedIn(mm, first, last) <==>
            exists h :: first <= h <= last && h in mm && mm[h].buddy && q in Span(h, mm[h].priv)
    decreases last + 1 - first
  {
    hide Span;
    if first <= last { HeadedBy(mm, first + 1, last, q); }
  }

  /** The count move_freepages_block returns is the number of those pages. */
  lemma MoveBlockCount(c: Core, z: Zoning, p: nat, t: nat)
    requires Shape(c) && WellFormed(BlocksOf(c.mm)) && t < MIGRATE_TYPES
    ensures MoveBlock(c, z, p, t).1 == |MovingPages(c.mm, z, p)|
  {
    hide MoveBlock, MoveRange, WellFormed, MovesWith, MoveFrom, MoveTo, HeadedIn, Span, Shape;
    MoveBlockRange(c, z, p, t);
    var first, last := MoveFrom(z, p), MoveTo(z, p);
    forall h: nat
      ensures last < z.startPfn + z.spanned ==> (first <= h <= last <==> MovesWith(z, p, h))
      ensures last >= z.startPfn + z.spanned ==> !MovesWith(z, p, h)
    {
      MoveRangeHolds(z, p, h);
    }
    if last < z.startPfn + z.spanned {
      MoveRangeCount(c, first, last, t);
      forall q: nat ensures q in HeadedIn(c.mm, first, last) <==> q in MovingPages(c.mm, z, p) {
        HeadedBy(c.mm, first, last, q);
      }
      assert HeadedIn(c.mm, first, last) == MovingPages(c.mm, z, p);
    } else {
      assert MovingPages(c.mm, z, p) == {};
    }
  }

  // ---------- pageblock migratetypes ----------

  function BlockIndex(z: Zoning, pfn: nat): nat
    requires z.startPfn <= pfn
  {
    Shr(pfn - z.startPfn, z.pageblockOrder)
  }

  /** Pageblocks are the runs of 2^pageblockOrder frames from the start of the zone. */
  lemma BlockIndexRuns(z: Zoning, pfn: nat)
    requires z.startPfn <= pfn
    ensures BlockIndex(z, pfn) == (pfn - z.startPfn) / Pow2(z.pageblockOrder)
  {
    ShrDivides(pfn - z.startPfn, z.pageblockOrder);
  }

  predicate InZone(z: Zoning, pfn: nat) {
    z.startPfn <= pfn < z.startPfn + z.spanned
  }

  /** The migratetype table has an entry below MIGRATE_TYPES for every page of the zone. */
  ghost predicate Typed(c: Core, z: Zoning) {
    && (forall pfn: nat :: InZone(z, pfn) ==> BlockIndex(z, pfn) < |c.types|)
    && (forall i :: 0 <= i < |c.types| ==> c.types[i] < MIGRATE_TYPES)
    && (forall pfn :: pfn in c.mm ==> InZone(z, pfn))
  }

  /** set_pageblock_migratetype. */
  function SetType(c: Core, z: Zoning, p: nat, t: nat): Core
    requires z.startPfn <= p && BlockIndex(z, p) < |c.types|
  {
    c.(types := c.types[BlockIndex(z, p) := NewType(z, t)])
  }

  /** change_pageblock_range over n pageblocks. */
  function ChangeTypes(c: Core, z: Zoning, p: nat, n: nat, t: nat): (d: Core)
    requires Typed(c, z) && t < MIGRATE_TYPES
    requires n > 0 ==> z.startPfn <= p && p + Shl(n, z.pageblockOrder) <= z.startPfn + z.spanned
    ensures Typed(d, z) && d.area == c.area && d.mm == c.mm
    decreases n
  {
    if n == 0 then c
    else
      ShlAdd(n - 1, 1, z.pageblockOrder);
      ShlNat(n - 1, z.pageblockOrder);
      assert InZone(z, p);
      ChangeTypes(SetType(c, z, p, t), z, p + Pow2(z.pageblockOrder), n - 1, t)
  }

  lemma ChangeTypesTurn(c: Core, z: Zoning, p: nat, n: nat, t: nat)
    requires Typed(c, z) && t < MIGRATE_TYPES && n > 0
    requires z.startPfn <= p && p + Shl(n, z.pageblockOrder) <= z.startPfn + z.spanned
    ensures BlockIndex(z, p) < |c.types|
    ensures var e := SetType(c, z, p, t);
            && Typed(e, z) && p + Pow2(z.pageblockOrder) + Shl(n - 1, z.pageblockOrder) <= z.startPfn + z.spanned
            && ChangeTypes(c, z, p, n, t) == ChangeTypes(e, z, p + Pow2(z.pageblockOrder), n - 1, t)
  {
    ShlAdd(n - 1, 1, z.pageblockOrder);
    ShlNat(n - 1, z.pageblockOrder);
    assert InZone(z, p);
  }

  lemma ChangeTypesNone(c: Core, z: Zoning, p: nat, t: nat)
    requires Typed(c, z) && t < MIGRATE_TYPES
    ensures ChangeTypes(c, z, p, 0, t) == c
  {}

  /** The type a pageblock is given: without grouping by mobility all are unmovable. */
  function NewType(z: Zoning, t: nat): nat {
    if z.ungrouped then MIGRATE_UNMOVABLE else t
  }

  lemma {:induction false} ChangeTypesAt(c: Core, z: Zoning, p: nat, n: nat, t: nat, i: nat)
    requires Typed(c, z) && t < MIGRATE_TYPES && i < |c.types| && z.startPfn <= p
    requires n > 0 ==> p + Shl(n, z.pageblockOrder) <= z.startPfn + z.spanned
    ensures var d := ChangeTypes(c, z, p, n, t);
            && |d.types| == |c.types|
            && d.types[i] == if BlockIndex(z, p) <= i < BlockIndex(z, p) + n then NewType(z, t) else c.types[i]
    decreases n
  {
    if n > 0 {
      var k := z.pageblockOrder;
      ShlAdd(n - 1, 1, k);
      ShlNat(n - 1, k);
      assert InZone(z, p);
      ShrNextBlock(p - z.startPfn, k);
      assert BlockIndex(z, p + Pow2(k)) == BlockIndex(z, p) + 1;
      ChangeTypesAt(SetType(c, z, p, t), z, p + Pow2(k), n - 1, t, i);
    }
  }

  lemma {:induction false} ShlPow2(a: nat, n: nat)
    ensures Shl(Pow2(a), n) == Pow2(a + n)
  {
    if n > 0 { ShlPow2(a, n - 1); }
  }

  // ---------- stealing from other migratetypes: __rmqueue_fallback ----------

  /** Row `start` of fallbacks[][]: three initialisers, and a fourth entry left at zero. */
  function Fallbacks(start: nat): (r: seq<nat>)
    ensures |r| == MIGRATE_TYPES - 1 && forall i :: 0 <= i < |r| ==> r[i] < MIGRATE_TYPES
  {
    if start == MIGRATE_UNMOVABLE then [MIGRATE_RECLAIMABLE, MIGRATE_MOVABLE, MIGRATE_RESERVE, 0]
    else if start == MIGRATE_RECLAIMABLE then [MIGRATE_UNMOVABLE, MIGRATE_MOVABLE, MIGRATE_RESERVE, 0]
    else if start == MIGRATE_MOVABLE then [MIGRATE_RECLAIMABLE, MIGRATE_UNMOVABLE, MIGRATE_RESERVE, 0]
    else if start == MIGRATE_RESERVE then [MIGRATE_RESERVE, MIGRATE_RESERVE, MIGRATE_RESERVE, 0]
    else [0, 0, 0, 0]
  }

  /** The first non-RESERVE fallback from column i on with an entry, or the row length. */
  function Column(a: Area, start: nat, i: nat): (r: nat)
    requires |a.lists| == MIGRATE_TYPES && i <= MIGRATE_TYPES - 1
    ensures i <= r <= MIGRATE_TYPES - 1
    ensures r < MIGRATE_TYPES - 1 ==> Fallbacks(start)[r] != MIGRATE_RESERVE && a.lists[Fallbacks(start)[r]] != []
    ensures forall j :: i <= j < r ==> Fallbacks(start)[j] == MIGRATE_RESERVE || a.lists[Fallbacks(start)[j]] == []
    decreases MIGRATE_TYPES - i
  {
    if i == MIGRATE_TYPES - 1 then i
    else if Fallbacks(start)[i] != MIGRATE_RESERVE && a.lists[Fallbacks(start)[i]] != [] then i
    else Column(a, start, i + 1)
  }

  /** The largest order in order..n-1 some fallback list of which has an entry. */
  function LargestOrder(c: Core, order: nat, n: nat, start: nat): (r: Option<nat>)
    requires Shape(c) && n <= MAX_ORDER
    ensures r.Some? ==> order <= r.value < n && Column(c.area[r.value], start, 0) < MIGRATE_TYPES - 1
    ensures forall i :: order <= i < n && (r.Some? ==> i > r.value) ==>
              Column(c.area[i], start, 0) == MIGRATE_TYPES - 1
    decreases n
  {
    if n <= order then None
    else if Column(c.area[n - 1], start, 0) < MIGRATE_TYPES - 1 then Some(n - 1)
    else LargestOrder(c, order, n - 1, start)
  }

  /** Whether breaking a block of order co moves its whole pageblock to the caller's type. */
  predicate Claims(z: Zoning, co: nat, start: nat) {
    co >= z.pageblockOrder / 2 || start == MIGRATE_RECLAIMABLE || z.ungrouped
  }

  /** The relabelling before the block is taken: nr_free is already decremented. */
  function Claim(c: Core, z: Zoning, p: nat, co: nat, start: nat): (d: Core)
    requires Shape(c) && Typed(c, z) && start < MIGRATE_TYPES && z.pageblockOrder >= 1
    requires co < MAX_ORDER && InZone(z, p)
    ensures Shape(d) && Typed(d, z) && d.mm == c.mm
  {
    if Claims(z, co, start) then
      var (d, pages) := MoveBlock(DecNrFree(c, co), z, p, start);
      if pages >= Pow2(z.pageblockOrder - 1) || z.ungrouped then SetType(d, z, p, start) else d
    else DecNrFree(c, co)
  }

  /** The block's pageblocks change type when the block spans whole pageblocks. */
  function Own(c: Core, z: Zoning, p: nat, co: nat, start: nat): (d: Core)
    requires Typed(c, z) && start < MIGRATE_TYPES
    requires z.startPfn <= p && p + Pow2(co) <= z.startPfn + z.spanned
    ensures Typed(d, z) && d.area == c.area && d.mm == c.mm
  {
    if co >= z.pageblockOrder then
      ShlPow2(co - z.pageblockOrder, z.pageblockOrder);
      ChangeTypes(c, z, p, Pow2(co - z.pageblockOrder), start)
    else c
  }

  /** Taking a block over changes the type of exactly the pageblocks it spans. */
  lemma OwnTypes(c: Core, z: Zoning, p: nat, co: nat, start: nat, i: nat)
    requires Typed(c, z) && start < MIGRATE_TYPES && i < |c.types| && BlockInZone(z, p, co)
    ensures var d := Own(c, z, p, co, start);
            && |d.types| == |c.types|
            && d.types[i] ==
               if co >= z.pageblockOrder && BlockIndex(z, p) <= i < BlockIndex(z, p) + Pow2(co - z.pageblockOrder)
               then (if z.ungrouped then MIGRATE_UNMOVABLE else start) else c.types[i]
  {
    hide Shl, Shr, ChangeTypes;
    if co >= z.pageblockOrder {
      ShlPow2(co - z.pageblockOrder, z.pageblockOrder);
      ChangeTypesAt(c, z, p, Pow2(co - z.pageblockOrder), start, i);
    }
  }

  /** Claiming changes at most the type of p's own pageblock, and does so exactly when blocks of this
      order or this type are claimed and at least half of the pageblock moved or grouping is off. */
  lemma ClaimTypes(c: Core, z: Zoning, p: nat, co: nat, start: nat, i: nat)
    requires Shape(c) && WellFormed(BlocksOf(c.mm)) && Typed(c, z) && start < MIGRATE_TYPES && z.pageblockOrder >= 1
    requires co < MAX_ORDER && InZone(z, p) && i < |c.types|
    ensures var d := Claim(c, z, p, co, start);
            && |d.types| == |c.types|
            && d.types[i] ==
               if i == BlockIndex(z, p) && Claims(z, co, start)
                  && (2 * |MovingPages(c.mm, z, p)| >= Pow2(z.pageblockOrder) || z.ungrouped)
               then (if z.ungrouped then MIGRATE_UNMOVABLE else start) else c.types[i]
  {
    hide MoveBlock, WellFormed, MovingPages, Shr;
    MoveBlockCount(DecNrFree(c, co), z, p, start);
    assert Pow2(z.pageblockOrder) == 2 * Pow2(z.pageblockOrder - 1);
  }

  predicate BlockInZone(z: Zoning, p: nat, o: nat) {
    z.startPfn <= p && p + Pow2(o) <= z.startPfn + z.spanned
  }

  /** Every listed block lies in the zone. */
  ghost predicate Ready(c: Core, z: Zoning) {
    Inv(c) && Typed(c, z) && z.pageblockOrder >= 1
  }

  lemma HeadInZone(c: Core, z: Zoning, p: nat, o: nat)
    requires Ready(c, z) && IsHead(c.mm, p, o)
    ensures o < MAX_ORDER && BlockInZone(z, p, o) && InZone(z, p)
  {
    hide Inv, Free, Span;
    InvShape(c);
    DropBlocks(c.mm, p, o);
    assert Inside(p, p, o) && Inside(p + Pow2(o) - 1, p, o);
    assert InZone(z, p) && InZone(z, p + Pow2(o) - 1);
  }

  /** The list a block of a's order is stolen from. */
  function Donor(a: Area, start: nat): (t: nat)
    requires |a.lists| == MIGRATE_TYPES && Column(a, start, 0) < MIGRATE_TYPES - 1
    ensures t < MIGRATE_TYPES && t != MIGRATE_RESERVE && a.lists[t] != []
  {
    Fallbacks(start)[Column(a, start, 0)]
  }

  /** Block p of order co, on a list of type t, is taken over for type `start` and split. */
  function TakeOver(c: Core, z: Zoning, p: nat, order: nat, co: nat, start: nat, t: nat): Core
    requires Shape(c) && Typed(c, z) && start < MIGRATE_TYPES && t < MIGRATE_TYPES && z.pageblockOrder >= 1
    requires order <= co < MAX_ORDER && InZone(z, p) && BlockInZone(z, p, co) && p in c.mm
  {
    DropTyped(Claim(c, z, p, co, start), z, p, co);
    var d := Own(Drop(Claim(c, z, p, co, start), p, co), z, p, co, start);
    Expand(d, p, order, co, if Claims(z, co, start) then start else t)
  }

  function Fallback(c: Core, z: Zoning, order: nat, start: nat): (Option<nat>, Core)
    requires Ready(c, z) && start < MIGRATE_TYPES
  {
    InvShape(c);
    match LargestOrder(c, order, MAX_ORDER, start)
    case None => (None, c)
    case Some(co) =>
      var t := Donor(c.area[co], start);
      var p := c.area[co].lists[t][0];
      ListedIsHead(c, co, t, p);
      HeadInZone(c, z, p, co);
      (Some(p), TakeOver(c, z, p, order, co, start, t))
  }

  lemma DropTyped(c: Core, z: Zoning, p: nat, o: nat)
    requires Typed(c, z) && p in c.mm && o < |c.area|
    ensures Typed(Drop(c, p, o), z)
  {}

  lemma DecListsHeads(c: Core, co: nat)
    requires Shape(c) && AllListed(c) && co < MAX_ORDER
    ensures ListsHeads(DecNrFree(c, co))
  {
    hide Mass;
    forall i | 0 <= i < MAX_ORDER ensures Listed(DecNrFree(c, co), i) { assert Listed(c, i); }
  }

  lemma ClaimBehind(c: Core, z: Zoning, p: nat, co: nat, start: nat)
    requires Ready(c, z) && start < MIGRATE_TYPES && co < MAX_ORDER && InZone(z, p)
    ensures OneBehind(c, Claim(c, z, p, co, start), co)
  {
    hide Inv, Free, WellFormed, Backed, MoveRange, Mass, Typed, AndNot, Shl, Pow2, AllListed, Listed, ListsHeads;
    InvShape(c);
    var c0 := DecNrFree(c, co);
    DecListsHeads(c, co);
    var first := AndNot(p, Pow2(z.pageblockOrder) - 1);
    var last := first + Pow2(z.pageblockOrder) - 1;
    MoveRangeMass(c0, if first < z.startPfn then p else first, last, start);
  }

  lemma TypedSame(c: Core, d: Core, z: Zoning)
    requires Typed(c, z) && c.types == d.types && c.mm.Keys == d.mm.Keys
    ensures Typed(d, z)
  {}

  lemma OwnDrop(c1: Core, z: Zoning, p: nat, co: nat, start: nat)
    requires Typed(c1, z) && Shape(c1) && start < MIGRATE_TYPES && co < MAX_ORDER && p in c1.mm && BlockInZone(z, p, co)
    ensures Typed(Drop(c1, p, co), z)
    ensures var d := Own(Drop(c1, p, co), z, p, co, start);
            && d == Drop(c1.(types := d.types), p, co) && Typed(d, z) && Shape(d) && d.mm.Keys == c1.mm.Keys
  {}

  lemma TakeOverKeeps(c: Core, z: Zoning, p: nat, order: nat, co: nat, start: nat, t: nat)
    requires Ready(c, z) && start < MIGRATE_TYPES && t < MIGRATE_TYPES && Shape(c)
    requires order <= co < MAX_ORDER && InZone(z, p) && BlockInZone(z, p, co) && IsHead(c.mm, p, co)
    ensures var d := TakeOver(c, z, p, order, co, start, t); Allocated(c, d, p, order) && Typed(d, z)
  {
    hide Inv, Free, Span, Expand, Claim, Own, Drop, Claims, Typed, Allocated;
    ClaimBehind(c, z, p, co, start);
    var c1 := Claim(c, z, p, co, start);
    OwnDrop(c1, z, p, co, start);
    var d := Own(Drop(c1, p, co), z, p, co, start);
    Retyped(c, c1, d.types, co);
    var to := if Claims(z, co, start) then start else t;
    CarveAllocates(c, c1.(types := d.types), p, order, co, to);
    AllocatedTypes(c, d, p, order, co, to, z);
  }

  lemma Retyped(c: Core, d: Core, types: seq<nat>, o: nat)
    requires OneBehind(c, d, o)
    ensures OneBehind(c, d.(types := types), o)
  {}

  lemma AllocatedTypes(c: Core, d: Core, p: nat, order: nat, co: nat, t: nat, z: Zoning)
    requires Typed(d, z) && Shape(d) && order <= co < MAX_ORDER && t < MIGRATE_TYPES
    requires var e := Expand(d, p, order, co, t);
             e.types == d.types && Allocated(c, e, p, order) && c.mm.Keys == d.mm.Keys
    ensures Typed(Expand(d, p, order, co, t), z)
  {
    hide Expand, Inv, Free, Span;
    TypedSame(d, Expand(d, p, order, co, t), z);
  }

  /** Stealing a block from another migratetype allocates just as well. */
  lemma FallbackKeeps(c: Core, z: Zoning, order: nat, start: nat)
    requires Ready(c, z) && start < MIGRATE_TYPES
    ensures var (r, d) := Fallback(c, z, order, start);
            match r
            case None => d == c
            case Some(p) => Allocated(c, d, p, order) && Typed(d, z)
  {
    hide Inv, Free, Span, TakeOver, LargestOrder, Donor, Column, Typed, Allocated;
    InvShape(c);
    var o := LargestOrder(c, order, MAX_ORDER, start);
    if o.Some? {
      var t := Donor(c.area[o.value], start);
      var p := c.area[o.value].lists[t][0];
      ListedIsHead(c, o.value, t, p);
      HeadInZone(c, z, p, o.value);
      TakeOverKeeps(c, z, p, order, o.value, start, t);
    }
  }

  // ---------- __rmqueue ----------

  function Rmqueue(c: Core, z: Zoning, order: nat, t: nat): (Option<nat>, Core)
    requires Ready(c, z) && t < MIGRATE_TYPES
    decreases t != MIGRATE_RESERVE
  {
    InvShape(c);
    RmSmallestKeeps(c, order, t);
    var (r, d) := RmSmallest(c, order, t);
    if r.None? && t != MIGRATE_RESERVE then
      var (r, d) := Fallback(c, z, order, t);
      if r.None? then Rmqueue(c, z, order, MIGRATE_RESERVE) else (r, d)
    else (r, d)
  }

  /** Every allocation step keeps the invariant and takes exactly the returned pages. */
  lemma {:induction false} RmqueueKeeps(c: Core, z: Zoning, order: nat, t: nat)
    requires Ready(c, z) && t < MIGRATE_TYPES
    ensures var (r, d) := Rmqueue(c, z, order, t);
            match r
            case None => d == c
            case Some(p) => Allocated(c, d, p, order) && Ready(d, z)
    decreases t != MIGRATE_RESERVE
  {
    hide Inv, Free, Span, WellFormed, Backed, AllListed;
    InvShape(c);
    RmSmallestKeeps(c, order, t);
    FallbackKeeps(c, z, order, t);
    if t != MIGRATE_RESERVE { RmqueueKeeps(c, z, order, MIGRATE_RESERVE); }
  }

  /** The lists a request for type t can be served from. */
  predicate Serves(t: nat, u: nat) {
    u == MIGRATE_RESERVE || u == t || (t != MIGRATE_RESERVE && u in Fallbacks(t))
  }

  ghost predicate Empty(c: Core, order: nat, n: nat, u: nat)
    requires Shape(c) && u < MIGRATE_TYPES && n <= MAX_ORDER
  {
    forall o: nat :: order <= o < n ==> c.area[o].lists[u] == []
  }

  ghost predicate NothingFor(c: Core, order: nat, t: nat)
    requires Shape(c)
  {
    forall u: nat :: u < MIGRATE_TYPES && Serves(t, u) ==> Empty(c, order, MAX_ORDER, u)
  }

  lemma FallbackNull(c: Core, order: nat, start: nat, n: nat)
    requires Shape(c) && n <= MAX_ORDER
    ensures LargestOrder(c, order, n, start).None? <==>
            forall u: nat :: u < MIGRATE_TYPES && u in Fallbacks(start) && u != MIGRATE_RESERVE ==> Empty(c, order, n, u)
  {
    var r := LargestOrder(c, order, n, start);
    if r.Some? {
      var k := Column(c.area[r.value], start, 0);
      var u := Fallbacks(start)[k];
      assert u in Fallbacks(start) && !Empty(c, order, n, u);
    } else {
      forall u: nat, o: nat | u in Fallbacks(start) && u != MIGRATE_RESERVE && order <= o < n ensures c.area[o].lists[u] == [] {
        var j :| 0 <= j < MIGRATE_TYPES - 1 && Fallbacks(start)[j] == u;
        assert Column(c.area[o], start, 0) == MIGRATE_TYPES - 1;
      }
    }
  }

  /** __rmqueue fails exactly when every list the request may use is empty from its order up. */
  lemma {:induction false} RmqueueNull(c: Core, z: Zoning, order: nat, t: nat)
    requires Ready(c, z) && t < MIGRATE_TYPES
    ensures Shape(c)
    ensures Rmqueue(c, z, order, t).0.None? <==> NothingFor(c, order, t)
    decreases t != MIGRATE_RESERVE
  {
    hide Inv, Free, Span, Allocated, Fallbacks, LargestOrder;
    InvShape(c);
    RmSmallestKeeps(c, order, t);
    assert RmSmallest(c, order, t).0.None? <==> Empty(c, order, MAX_ORDER, t);
    FallbackNull(c, order, t, MAX_ORDER);
    if t != MIGRATE_RESERVE {
      RmqueueNull(c, z, order, MIGRATE_RESERVE);
      assert NothingFor(c, order, MIGRATE_RESERVE) <==> Empty(c, order, MAX_ORDER, MIGRATE_RESERVE);
    }
  }

  lemma MobileServes(t: nat, u: nat)
    requires t < MIGRATE_PCPTYPES && u < MIGRATE_TYPES
    ensures Serves(t, u) <==> u < MIGRATE_ISOLATE
  {
    var f := Fallbacks(t);
    assert f[0] in f && f[1] in f && f[2] in f && f[3] in f;
  }

  /** For unmovable, reclaimable and movable requests that is every list but ISOLATE. */
  lemma RmqueueNullMobile(c: Core, z: Zoning, order: nat, t: nat)
    requires Ready(c, z) && t < MIGRATE_PCPTYPES
    ensures Shape(c)
    ensures Rmqueue(c, z, order, t).0.None? <==>
            forall u: nat :: u < MIGRATE_ISOLATE ==> Empty(c, order, MAX_ORDER, u)
  {
    hide Inv, Free, Span, Rmqueue, Serves;
    InvShape(c);
    RmqueueNull(c, z, order, t);
    forall u: nat | u < MIGRATE_TYPES ensures Serves(t, u) <==> u < MIGRATE_ISOLATE { MobileServes(t, u); }
  }

  // ---------- the index arithmetic of __free_one_page ----------

  /** Working on page_idx, the low MAX_ORDER bits of the pfn, finds the same buddy and the same
      combined block as working on the pfn. */
  lemma IndexArithmetic(p: nat, idx: nat, o: nat)
    requires o < MAX_ORDER && idx == And(p, Pow2(MAX_ORDER) - 1)
    ensures p + (Xor(idx, Pow2(o)) - idx) == BuddyOf(p, o)
    ensures p + (AndNot(idx, Pow2(o)) - idx) == Lower(p, BuddyOf(p, o))
    ensures AndNot(idx, Pow2(o)) == And(Lower(p, BuddyOf(p, o)), Pow2(MAX_ORDER) - 1)
  {
    hide Pow2, And, Xor, AndNot;
    MaskKeepsBit(p, MAX_ORDER, o);
    SingleBit(p, o);
    SingleBit(idx, o);
    if Bit(p, o) { MaskClears(p, MAX_ORDER, o); }
  }

  // ---------- rmqueue_bulk ----------

  /** Up to n single pages taken one after another, each marked with the type it was taken for. */
  function Refill(c: Core, z: Zoning, n: nat, t: nat): (r: (seq<nat>, Core))
    requires Ready(c, z) && t < MIGRATE_TYPES
    decreases n
  {
    if n == 0 then ([], c)
    else
      RmqueueKeeps(c, z, 0, t);
      var (r, d) := Rmqueue(c, z, 0, t);
      match r
      case None => ([], c)
      case Some(p) =>
        PrivateKeeps(d, p, t);
        var (ps, e) := Refill(d.(mm := d.mm[p := Page(false, t)]), z, n - 1, t);
        ([p] + ps, e)
  }
}
