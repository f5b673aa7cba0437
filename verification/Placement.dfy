/** On which free list every block is, and where on it, before and after each buddy-allocator operation. */
module Placement {
  import opened Bits
  import opened Buddy
  import opened FreeLists
  import opened FreeArea
  import opened PageAlloc

  /** The entries of a list outside the page frames lo..hi - 1, in their order. */
  function Outside(s: seq<nat>, lo: nat, hi: nat): seq<nat> {
    if s == [] then []
    else (if lo <= s[0] < hi then [] else [s[0]]) + Outside(s[1..], lo, hi)
  }

  lemma {:induction false} OutsideWithout(s: seq<nat>, p: nat, lo: nat, hi: nat)
    requires lo <= p < hi
    ensures Outside(Without(s, p), lo, hi) == Outside(s, lo, hi)
  {
    if s != [] { OutsideWithout(s[1..], p, lo, hi); }
  }

  lemma {:induction false} OutsideAll(s: seq<nat>, lo: nat, hi: nat)
    requires forall x :: x in s ==> !(lo <= x < hi)
    ensures Outside(s, lo, hi) == s
  {
    if s != [] {
      assert s[0] in s && forall x :: x in s[1..] ==> x in s;
      OutsideAll(s[1..], lo, hi);
    }
  }

  lemma {:induction false} WithoutAbsent(s: seq<nat>, p: nat)
    requires p !in s
    ensures Without(s, p) == s
  {
    if s != [] {
      assert s[0] in s && forall x :: x in s[1..] ==> x in s;
      WithoutAbsent(s[1..], p);
    }
  }

  lemma OutsideOne(s: seq<nat>, p: nat, lo: nat, hi: nat)
    requires lo <= p < hi && forall x :: x in s && lo <= x < hi ==> x == p
    ensures Without(s, p) == Outside(s, lo, hi)
  {
    OutsideWithout(s, p, lo, hi);
    forall x | x in Without(s, p) ensures !(lo <= x < hi) { WithoutOthers(s, p, x); }
    OutsideAll(Without(s, p), lo, hi);
  }

  // ---------- freeing ----------

  /** Every list loses what lies in the block of order u at h, and list t of that order gets h in front. */
  ghost predicate JoinedAt(c: Core, d: Core, h: nat, u: nat, t: nat) {
    && Shape(c) && Shape(d)
    && forall v: nat, w: nat :: v < MAX_ORDER && w < MIGRATE_TYPES ==>
         d.area[v].lists[w] ==
         (if v == u && w == t then [h] else []) + Outside(c.area[v].lists[w], h, h + Pow2(u))
  }

  lemma NoEntries(c: Core, p: nat, o: nat, v: nat, w: nat)
    requires Inv(c) && Span(p, o) !! Free(c) && v < MAX_ORDER && w < MIGRATE_TYPES
    ensures Shape(c) && Outside(c.area[v].lists[w], p, p + Pow2(o)) == c.area[v].lists[w]
  {
    hide Inv, Free, Span;
    InvShape(c);
    forall x | x in c.area[v].lists[w] ensures !(p <= x < p + Pow2(o)) {
      ListedIsHead(c, v, w, x);
      HeadIsFree(c, x, v);
      InSpanOf(p, o, x);
    }
    OutsideAll(c.area[v].lists[w], p, p + Pow2(o));
  }

  lemma InSpanOf(p: nat, o: nat, x: nat)
    ensures x in Span(p, o) <==> p <= x < p + Pow2(o)
  {}

  lemma PutJoins(c: Core, p: nat, o: nat, t: nat)
    requires Inv(c) && o < MAX_ORDER && t < MIGRATE_TYPES && Span(p, o) !! Free(c) && p in c.mm
    ensures Shape(c) && JoinedAt(c, Put(c, p, o, t), p, o, t)
  {
    hide Inv, Free, Span, Outside, Pow2;
    InvShape(c);
    forall v: nat, w: nat | v < MAX_ORDER && w < MIGRATE_TYPES
      ensures Outside(c.area[v].lists[w], p, p + Pow2(o)) == c.area[v].lists[w] { NoEntries(c, p, o, v, w); }
  }

  lemma TakeJoins(c: Core, q: nat, o: nat, d: Core, h: nat, u: nat, t: nat)
    requires Shape(c) && o < MAX_ORDER && JoinedAt(Take(c, q, o), d, h, u, t) && q in Span(h, u)
    ensures JoinedAt(c, d, h, u, t)
  {
    hide Outside, Unlink, Pow2, Without, Span;
    InSpanOf(h, u, q);
    TakeShape(c, q, o);
    var c1 := Take(c, q, o);
    forall v: nat, w: nat | v < MAX_ORDER && w < MIGRATE_TYPES
      ensures Outside(c1.area[v].lists[w], h, h + Pow2(u)) == Outside(c.area[v].lists[w], h, h + Pow2(u))
    {
      if v == o { OutsideWithout(c.area[v].lists[w], q, h, h + Pow2(u)); }
    }
  }

  /** A freed block ends up in one free block h of order u, which is first on list t of its order; nothing
      else changes list, or its place among the others. */
  lemma {:induction false} FreeOneLists(c: Core, p: nat, o: nat, t: nat) returns (h: nat, u: nat)
    requires Inv(c) && o < MAX_ORDER && t < MIGRATE_TYPES && Aligned(p, o)
    requires Span(p, o) <= c.mm.Keys - Free(c)
    ensures o <= u < MAX_ORDER && Shape(c)
    ensures var d := FreeOne(c, p, o, t);
            IsHead(d.mm, h, u) && Span(p, o) <= Span(h, u) && JoinedAt(c, d, h, u, t)
    decreases MAX_ORDER - o
  {
    hide Inv, Free, Span, BuddyOf, IsHead, Aligned, Bit, Inside, JoinedAt, Take, Put;
    InvShape(c);
    var twin := BuddyOf(p, o);
    if o < MAX_ORDER - 1 && IsHead(c.mm, twin, o) {
      MergeStep(c, p, o);
      TwinSpans(p, o);
      StartInside(twin, o);
      h, u := FreeOneLists(Take(c, twin, o), Lower(p, twin), o + 1, t);
      TakeJoins(c, twin, o, FreeOne(c, p, o, t), h, u, t);
    } else {
      h, u := p, o;
      StartInside(p, o);
      PutJoins(c, p, o, t);
      PutHead(c, p, o, t);
    }
  }

  lemma PutHead(c: Core, p: nat, o: nat, t: nat)
    requires o < |c.area| && t < |c.area[o].lists|
    ensures IsHead(Put(c, p, o, t).mm, p, o)
  {}

  /** A block freed without merging is the next one given out for its order and type, and giving it out
      restores the lists and counts. */
  lemma FreeThenTake(c: Core, p: nat, o: nat, t: nat)
    requires Inv(c) && o < MAX_ORDER && t < MIGRATE_TYPES && Aligned(p, o)
    requires Span(p, o) <= c.mm.Keys - Free(c)
    requires o == MAX_ORDER - 1 || !IsHead(c.mm, BuddyOf(p, o), o)
    ensures Shape(c) && Shape(FreeOne(c, p, o, t)) && p in c.mm
    ensures RmSmallest(FreeOne(c, p, o, t), o, t) == (Some(p), c.(mm := c.mm[p := Page(false, 0)]))
  {
    hide Inv, Free, Span, BuddyOf, IsHead, Aligned, RmSmallest, Take, Put;
    InvShape(c);
    StartInside(p, o);
    PutKeeps(c, p, o, t);
    var d := Put(c, p, o, t);
    InvShape(d);
    PutFront(c, p, o, t);
    TakeFront(d, p, o, t);
    PutTake(c, p, o, t);
  }

  lemma PutFront(c: Core, p: nat, o: nat, t: nat)
    requires Shape(c) && o < MAX_ORDER && t < MIGRATE_TYPES
    ensures var d := Put(c, p, o, t); d.area[o].lists[t] == [p] + c.area[o].lists[t]
  {}

  /** The front of a list at the order asked for is given out as it is. */
  lemma TakeFront(c: Core, p: nat, o: nat, t: nat)
    requires Shape(c) && o < MAX_ORDER && t < MIGRATE_TYPES && c.area[o].lists[t] != [] && c.area[o].lists[t][0] == p
    ensures RmSmallest(c, o, t) == (Some(p), Take(c, p, o))
  {
    hide Take;
    assert SmallestOrder(c.area, o, t) == o;
  }

  lemma PutTake(c: Core, p: nat, o: nat, t: nat)
    requires Inv(c) && o < MAX_ORDER && t < MIGRATE_TYPES && Span(p, o) !! Free(c) && p in c.mm
    ensures Shape(c) && Take(Put(c, p, o, t), p, o) == c.(mm := c.mm[p := Page(false, 0)])
  {
    hide Inv, Free, Span, Without;
    InvShape(c);
    var ls := c.area[o].lists;
    forall w | 0 <= w < MIGRATE_TYPES ensures Without(Push(ls, t, p)[w], p) == ls[w] {
      if p in ls[w] {
        ListedIsHead(c, o, w, p);
        HeadIsFree(c, p, o);
        StartInside(p, o);
      }
      WithoutAbsent(ls[w], p);
      PushWithout(ls[w], p);
    }
    assert Unlink(Push(ls, t, p), p) == ls;
    var d := Take(Put(c, p, o, t), p, o);
    assert d.area == c.area;
  }

  lemma PushWithout(s: seq<nat>, p: nat)
    ensures Without([p] + s, p) == Without(s, p)
  {
    assert ([p] + s)[1..] == s;
  }

  // ---------- splitting ----------

  /** What is split off joins the front of list t, one block per order; the rest keeps its place. */
  lemma {:induction false} ExpandLists(c: Core, p: nat, low: nat, high: nat, t: nat, v: nat)
    requires Shape(c) && low <= high < MAX_ORDER && t < MIGRATE_TYPES && v < MAX_ORDER
    ensures Shape(Expand(c, p, low, high, t))
    ensures Expand(c, p, low, high, t).area[v].lists ==
            if low <= v < high then Push(c.area[v].lists, t, p + Pow2(v)) else c.area[v].lists
    decreases high
  {
    hide Push, Pow2, Expand;
    if high > low {
      ExpandTurn(c, p, low, high, t);
      PutLists(c, p + Pow2(high - 1), high - 1, t, v);
      ExpandLists(Put(c, p + Pow2(high - 1), high - 1, t), p, low, high - 1, t, v);
    } else {
      ExpandStop(c, p, low, t);
    }
  }

  lemma ExpandStop(c: Core, p: nat, o: nat, t: nat)
    requires Shape(c) && o < MAX_ORDER && t < MIGRATE_TYPES
    ensures Expand(c, p, o, o, t) == c
  {}

  lemma PutLists(c: Core, p: nat, o: nat, t: nat, v: nat)
    requires Shape(c) && o < MAX_ORDER && t < MIGRATE_TYPES && v < MAX_ORDER
    ensures Put(c, p, o, t).area[v].lists == if v == o then Push(c.area[v].lists, t, p) else c.area[v].lists
  {}

  /** The heads after a split: those before it, outside the block, and one per order inside it. */
  lemma {:induction false} ExpandHeads(c: Core, p: nat, low: nat, high: nat, t: nat, h: nat, v: nat)
    requires Shape(c) && low <= high < MAX_ORDER && t < MIGRATE_TYPES
    requires forall q: nat :: p <= q < p + Pow2(high) && q in c.mm ==> !c.mm[q].buddy
    ensures IsHead(Expand(c, p, low, high, t).mm, h, v) <==>
            (low <= v < high && h == p + Pow2(v)) || IsHead(c.mm, h, v)
    decreases high
  {
    if high > low {
      var e := Put(c, p + Pow2(high - 1), high - 1, t);
      ExpandTurn(c, p, low, high, t);
      ExpandHeads(e, p, low, high - 1, t, h, v);
      if low <= v < high - 1 { Pow2Monotone(v, high - 1); }
    }
  }

  // ---------- allocating ----------

  /** After an allocation of p from a block of order co: list t gets what was split off, and every list
      loses what lay in the block. */
  ghost predicate SplitAt(c: Core, d: Core, p: nat, order: nat, co: nat, t: nat) {
    && Shape(c) && Shape(d)
    && forall v: nat, w: nat :: v < MAX_ORDER && w < MIGRATE_TYPES ==>
         d.area[v].lists[w] ==
         (if order <= v < co && w == t then [p + Pow2(v)] else []) + Outside(c.area[v].lists[w], p, p + Pow2(co))
  }

  /** Inside a free block only its head is on a list, and only at its order. */
  lemma OnlyHead(c: Core, p: nat, o: nat, v: nat, w: nat, x: nat)
    requires Shape(c) && ListsHeads(c) && WellFormed(BlocksOf(c.mm))
    requires IsHead(c.mm, p, o) && v < MAX_ORDER && w < MIGRATE_TYPES
    requires x in c.area[v].lists[w] && p <= x < p + Pow2(o)
    ensures x == p && v == o
  {
    hide WellFormed;
    EntryIsHead(c, v, w, x);
    if x != p { HeadsApart(BlocksOf(c.mm), p, x); }
  }

  lemma EntryIsHead(c: Core, v: nat, w: nat, x: nat)
    requires Shape(c) && ListsHeads(c) && v < MAX_ORDER && w < MIGRATE_TYPES && x in c.area[v].lists[w]
    ensures IsHead(c.mm, x, v)
  {
    assert Listed(c, v);
    UpdateMass(c.area[v].lists, w, []);
    assert x in multiset(c.area[v].lists[w]);
  }

  lemma InvLists(c: Core)
    requires Inv(c)
    ensures Shape(c) && ListsHeads(c) && WellFormed(BlocksOf(c.mm))
  {
    hide WellFormed, Listed, Mass, Backed;
  }

  lemma TakenOutside(c: Core, p: nat, o: nat, v: nat, w: nat)
    requires Shape(c) && ListsHeads(c) && WellFormed(BlocksOf(c.mm))
    requires IsHead(c.mm, p, o) && v < MAX_ORDER && w < MIGRATE_TYPES
    ensures (if v == o then Without(c.area[v].lists[w], p) else c.area[v].lists[w])
            == Outside(c.area[v].lists[w], p, p + Pow2(o))
  {
    hide WellFormed, Without, Outside, ListsHeads;
    var s := c.area[v].lists[w];
    forall x | x in s && p <= x < p + Pow2(o) ensures x == p && v == o { OnlyHead(c, p, o, v, w, x); }
    if v == o { OutsideOne(s, p, p, p + Pow2(o)); } else { OutsideAll(s, p, p + Pow2(o)); }
  }

  lemma CarveLists(c: Core, p: nat, order: nat, co: nat, t: nat)
    requires Inv(c) && IsHead(c.mm, p, co) && order <= co < MAX_ORDER && t < MIGRATE_TYPES
    ensures Shape(c) && SplitAt(c, Carve(c, p, order, co, t), p, order, co, t)
  {
    hide Inv, Expand, IsHead, SplitAt, ListsHeads, WellFormed;
    InvLists(c);
    DropSplits(c, Take(c, p, co), p, order, co, t);
  }

  lemma DropSplits(c: Core, e: Core, p: nat, order: nat, co: nat, t: nat)
    requires Shape(c) && ListsHeads(c) && WellFormed(BlocksOf(c.mm)) && Shape(e)
    requires IsHead(c.mm, p, co) && order <= co < MAX_ORDER && t < MIGRATE_TYPES
    requires forall v :: 0 <= v < MAX_ORDER ==>
               e.area[v].lists == if v == co then Unlink(c.area[v].lists, p) else c.area[v].lists
    ensures SplitAt(c, Expand(e, p, order, co, t), p, order, co, t)
  {
    hide Without, Outside, Push, Expand, Unlink, IsHead, Pow2, ListsHeads, WellFormed;
    ExpandLists(e, p, order, co, t, 0);
    var d := Expand(e, p, order, co, t);
    forall v: nat, w: nat | v < MAX_ORDER && w < MIGRATE_TYPES
      ensures d.area[v].lists[w] ==
              (if order <= v < co && w == t then [p + Pow2(v)] else []) + Outside(c.area[v].lists[w], p, p + Pow2(co))
    {
      ExpandLists(e, p, order, co, t, v);
      TakenOutside(c, p, co, v, w);
      PushAt(e.area[v].lists, t, p + Pow2(v), w);
    }
  }

  lemma PushAt(ls: seq<seq<nat>>, t: nat, p: nat, w: nat)
    requires t < |ls| && w < |ls|
    ensures |Push(ls, t, p)| == |ls| && Push(ls, t, p)[w] == (if w == t then [p] else []) + ls[w]
  {}

  // ---------- relabelling ----------

  /** The free blocks of order o headed in first..last, the last one first. */
  function LastFirst(mm: map<nat, Page>, o: nat, first: nat, last: nat): seq<nat>
    decreases last + 1 - first
  {
    if first > last then []
    else LastFirst(mm, o, first + 1, last) + (if IsHead(mm, first, o) then [first] else [])
  }

  lemma {:induction false} LastFirstFrom(mm: map<nat, Page>, o: nat, first: nat, from: nat, last: nat)
    requires first <= from
    requires forall h: nat :: first <= h < from ==> !IsHead(mm, h, o)
    ensures LastFirst(mm, o, first, last) == LastFirst(mm, o, from, last)
    decreases from
  {
    if first < from {
      LastFirstFrom(mm, o, first, from - 1, last);
      assert !IsHead(mm, from - 1, o);
    }
  }

  lemma {:induction false} OutsideNarrow(s: seq<nat>, lo: nat, lo': nat, hi: nat)
    requires lo <= lo' && forall x :: x in s ==> !(lo <= x < lo')
    ensures Outside(s, lo, hi) == Outside(s, lo', hi)
  {
    if s != [] {
      assert s[0] in s && forall x :: x in s[1..] ==> x in s;
      OutsideNarrow(s[1..], lo, lo', hi);
    }
  }

  /** move_freepages puts the blocks it moves in front of list t, the last one first, and leaves the order
      of everything else alone. */
  lemma {:induction false} MoveRangeOrder(c: Core, first: nat, last: nat, t: nat, v: nat, w: nat)
    requires Shape(c) && ListsHeads(c) && WellFormed(BlocksOf(c.mm)) && t < MIGRATE_TYPES && v < MAX_ORDER && w < MIGRATE_TYPES
    ensures MoveRange(c, first, last, t).0.area[v].lists[w] ==
            (if w == t then LastFirst(c.mm, v, first, last) else []) + Outside(c.area[v].lists[w], first, last + 1)
    decreases last + 1 - first
  {
    hide WellFormed, MoveRange, Relist, Outside, LastFirst, ListsHeads, Shape, BlocksOf;
    if first > last {
      MoveRangeNone(c, first, last, t);
      NoneInRange(c, first, last, v, w);
      return;
    }
    MoveRangeTurn(c, first, last, t);
    if first !in c.mm || !c.mm[first].buddy {
      MoveRangeOrder(c, first + 1, last, t, v, w);
      PassOver(c, first, last, v, w);
    } else {
      var o := c.mm[first].priv;
      RelistMass(c, first, o, t);
      MoveRangeOrder(Relist(c, first, o, t), first + Pow2(o), last, t, v, w);
      MoveOne(c, first, last, t, v, w);
    }
  }

  lemma NoneInRange(c: Core, first: nat, last: nat, v: nat, w: nat)
    requires Shape(c) && v < MAX_ORDER && w < MIGRATE_TYPES && first > last
    ensures LastFirst(c.mm, v, first, last) == [] && Outside(c.area[v].lists[w], first, last + 1) == c.area[v].lists[w]
  {
    OutsideAll(c.area[v].lists[w], first, last + 1);
  }

  lemma PassOver(c: Core, first: nat, last: nat, v: nat, w: nat)
    requires Shape(c) && ListsHeads(c) && v < MAX_ORDER && w < MIGRATE_TYPES
    requires first !in c.mm || !c.mm[first].buddy
    ensures LastFirst(c.mm, v, first, last) == LastFirst(c.mm, v, first + 1, last)
    ensures Outside(c.area[v].lists[w], first, last + 1) == Outside(c.area[v].lists[w], first + 1, last + 1)
  {
    hide ListsHeads, Outside, LastFirst;
    LastFirstFrom(c.mm, v, first, first + 1, last);
    var s := c.area[v].lists[w];
    forall x | x in s ensures !(first <= x < first + 1) { EntryIsHead(c, v, w, x); }
    OutsideNarrow(s, first, first + 1, last + 1);
  }

  lemma MoveOne(c: Core, first: nat, last: nat, t: nat, v: nat, w: nat)
    requires Shape(c) && ListsHeads(c) && WellFormed(BlocksOf(c.mm)) && t < MIGRATE_TYPES && v < MAX_ORDER && w < MIGRATE_TYPES
    requires first <= last && first in c.mm && c.mm[first].buddy
    ensures var o := c.mm[first].priv;
            o < MAX_ORDER && var d, next := Relist(c, first, o, t), first + Pow2(o);
            (if w == t then LastFirst(c.mm, v, next, last) else []) + Outside(d.area[v].lists[w], next, last + 1) ==
            (if w == t then LastFirst(c.mm, v, first, last) else []) + Outside(c.area[v].lists[w], first, last + 1)
  {
    hide ListsHeads, Outside, LastFirst, WellFormed, Pow2, Without, Unlink;
    var o := c.mm[first].priv;
    var next, s := first + Pow2(o), c.area[v].lists[w];
    forall x | x in s && first <= x < next ensures x == first && v == o { OnlyHead(c, first, o, v, w, x); }
    forall h: nat | first < h < next ensures !IsHead(c.mm, h, v) { NoHeadInside(c, first, h, v); }
    LastFirstFrom(c.mm, v, first + 1, next, last);
    LastFirstTurn(c.mm, v, first, last);
    if v == o {
      OutsideWithout(s, first, first, last + 1);
      forall x | x in Without(s, first) ensures !(first <= x < next) { WithoutOthers(s, first, x); }
      OutsideNarrow(Without(s, first), first, next, last + 1);
      PushAt(Unlink(c.area[o].lists, first), t, first, w);
      OutsideFront(first, Without(s, first), next, last + 1);
    } else {
      OutsideNarrow(s, first, next, last + 1);
    }
  }

  lemma OutsideFront(x: nat, s: seq<nat>, lo: nat, hi: nat)
    requires x < lo
    ensures Outside([x] + s, lo, hi) == [x] + Outside(s, lo, hi) && [] + s == s
  {
    assert ([x] + s)[1..] == s;
  }

  lemma LastFirstTurn(mm: map<nat, Page>, o: nat, first: nat, last: nat)
    requires first <= last
    ensures LastFirst(mm, o, first, last) == LastFirst(mm, o, first + 1, last) + (if IsHead(mm, first, o) then [first] else [])
  {}

  lemma NoHeadInside(c: Core, p: nat, h: nat, v: nat)
    requires WellFormed(BlocksOf(c.mm)) && p in c.mm && c.mm[p].buddy && p < h < p + Pow2(c.mm[p].priv)
    ensures !IsHead(c.mm, h, v)
  {
    if IsHead(c.mm, h, v) { HeadsApart(BlocksOf(c.mm), p, h); }
  }

  // ---------- stealing ----------

  /** A block of order co stolen for type `start` becomes `start`'s, and its pageblock with it: it is at least
      half a pageblock's order, or `start` is RECLAIMABLE, or grouping by mobility is off. */
  predicate BecomesOwn(z: Zoning, co: nat, start: nat) {
    2 * co + 1 >= z.pageblockOrder || start == MIGRATE_RECLAIMABLE || z.ungrouped
  }

  lemma OutsideIn(s: seq<nat>, lo: nat, hi: nat, x: nat)
    ensures x in Outside(s, lo, hi) <==> x in s && !(lo <= x < hi)
  {
    if s != [] {
      assert s == [s[0]] + s[1..];
      OutsideIn(s[1..], lo, hi, x);
    }
  }

  lemma ClaimLists(c: Core, z: Zoning, p: nat, co: nat, start: nat, h: nat, v: nat, u: nat)
    requires Ready(c, z) && start < MIGRATE_TYPES && co < MAX_ORDER && InZone(z, p)
    requires IsHead(c.mm, h, v) && u < MIGRATE_TYPES
    ensures Shape(c) && v < MAX_ORDER
    ensures h in Claim(c, z, p, co, start).area[v].lists[u] <==>
            if BecomesOwn(z, co, start) && MovesWith(z, p, h) then u == start else h in c.area[v].lists[u]
  {
    hide Inv, Typed, MoveBlock, MovesWith, WellFormed;
    InvShape(c);
    MoveBlockLists(DecNrFree(c, co), z, p, start, h, u);
  }

  lemma BehindLists(c: Core, d: Core, o: nat)
    requires Shape(c) && ListsHeads(c) && OneBehind(c, d, o)
    ensures Shape(d) && ListsHeads(d)
  {
    hide Mass;
    forall i | 0 <= i < MAX_ORDER ensures Listed(d, i) { assert Listed(c, i); }
  }

  /** After a block is stolen every list loses what lay in it, and what is split off goes in front of `start`'s
      lists or the donor's. */
  lemma TakeOverSplits(c: Core, z: Zoning, p: nat, order: nat, co: nat, start: nat, t: nat)
    requires Ready(c, z) && start < MIGRATE_TYPES && t < MIGRATE_TYPES && Shape(c)
    requires order <= co < MAX_ORDER && InZone(z, p) && BlockInZone(z, p, co) && IsHead(c.mm, p, co)
    ensures SplitAt(Claim(c, z, p, co, start), TakeOver(c, z, p, order, co, start, t), p, order, co,
                    if BecomesOwn(z, co, start) then start else t)
  {
    hide Inv, Claim, Own, Expand, Typed, SplitAt, ListsHeads, WellFormed;
    ClaimBehind(c, z, p, co, start);
    InvLists(c);
    var c1 := Claim(c, z, p, co, start);
    BehindLists(c, c1, co);
    OwnDrop(c1, z, p, co, start);
    DropSplits(c1, Own(Drop(c1, p, co), z, p, co, start), p, order, co, if Claims(z, co, start) then start else t);
  }

  /** Where every free block is after block p of order co was stolen from list t: what was split off p is on
      the list of the type that owns it now, and every other block is where it was, unless p's pageblock was
      moved and the block with it. */
  lemma TakeOverLists(c: Core, z: Zoning, p: nat, order: nat, co: nat, start: nat, t: nat, h: nat, v: nat, u: nat)
    requires Ready(c, z) && start < MIGRATE_TYPES && t < MIGRATE_TYPES && Shape(c)
    requires order <= co < MAX_ORDER && InZone(z, p) && BlockInZone(z, p, co) && IsHead(c.mm, p, co)
    requires IsHead(TakeOver(c, z, p, order, co, start, t).mm, h, v) && u < MIGRATE_TYPES
    ensures v < MAX_ORDER && Shape(TakeOver(c, z, p, order, co, start, t))
    ensures h in TakeOver(c, z, p, order, co, start, t).area[v].lists[u] <==>
            if p <= h < p + Pow2(co) then u == if BecomesOwn(z, co, start) then start else t
            else if BecomesOwn(z, co, start) && MovesWith(z, p, h) then u == start
            else h in c.area[v].lists[u]
  {
    hide Inv, TakeOver, Claim, MovesWith, Outside, Pow2, Typed, ListsHeads;
    var d := TakeOver(c, z, p, order, co, start, t);
    var to := if BecomesOwn(z, co, start) then start else t;
    TakeOverSplits(c, z, p, order, co, start, t);
    TakeOverHeads(c, z, p, order, co, start, t, h, v);
    var l := Claim(c, z, p, co, start).area[v].lists[u];
    OutsideIn(l, p, p + Pow2(co), h);
    if v < co { SplitInside(p, order, co, v); }
    assert d.area[v].lists[u] == (if order <= v < co && u == to then [p + Pow2(v)] else []) + Outside(l, p, p + Pow2(co));
    if !(p <= h < p + Pow2(co)) { ClaimLists(c, z, p, co, start, h, v, u); }
  }

  lemma SplitInside(p: nat, order: nat, co: nat, v: nat)
    requires v < co
    ensures p <= p + Pow2(v) < p + Pow2(co)
  {
    Pow2Monotone(v, co);
  }

  /** The free blocks after that: those split off p, and the others outside p's block. */
  lemma TakeOverHeads(c: Core, z: Zoning, p: nat, order: nat, co: nat, start: nat, t: nat, h: nat, v: nat)
    requires Ready(c, z) && start < MIGRATE_TYPES && t < MIGRATE_TYPES && Shape(c)
    requires order <= co < MAX_ORDER && InZone(z, p) && BlockInZone(z, p, co) && IsHead(c.mm, p, co)
    requires IsHead(TakeOver(c, z, p, order, co, start, t).mm, h, v)
    ensures v < MAX_ORDER
    ensures if p <= h < p + Pow2(co) then order <= v < co && h == p + Pow2(v) else IsHead(c.mm, h, v)
  {
    hide Inv, Claim, Own, Expand, Typed, WellFormed;
    InvShape(c);
    var c1 := Claim(c, z, p, co, start);
    OwnDrop(c1, z, p, co, start);
    var e := Own(Drop(c1, p, co), z, p, co, start);
    forall q: nat | p <= q < p + Pow2(co) && q in e.mm ensures !e.mm[q].buddy {
      if q != p && c.mm[q].buddy { NoHeadInside(c, p, q, c.mm[q].priv); }
    }
    ExpandHeads(e, p, order, co, if Claims(z, co, start) then start else t, h, v);
    if order <= v < co && h == p + Pow2(v) { SplitInside(p, order, co, v); }
  }

  // ---------- which block is given out ----------

  /** The front of list u at order o, with nothing on that list at the orders from `order` below it. */
  ghost predicate Smallest(c: Core, order: nat, u: nat, o: nat)
    requires Shape(c) && u < MIGRATE_TYPES
  {
    order <= o < MAX_ORDER && c.area[o].lists[u] != [] && Empty(c, order, o, u)
  }

  /** No list a block may be stolen from has one of an order in order..n-1. */
  ghost predicate NoDonor(c: Core, order: nat, n: nat, t: nat)
    requires Shape(c) && n <= MAX_ORDER
  {
    forall u: nat :: u < MIGRATE_TYPES && u in Fallbacks(t) && u != MIGRATE_RESERVE ==> Empty(c, order, n, u)
  }

  /** A block to steal: on list u at order o, no list one may steal from having a larger one, nor one of that
      order if it comes before u in the fallback order. */
  ghost predicate BestDonor(c: Core, order: nat, t: nat, o: nat, u: nat)
    requires Shape(c)
  {
    && order <= o < MAX_ORDER && u < MIGRATE_TYPES && u != MIGRATE_RESERVE && c.area[o].lists[u] != []
    && (forall x: nat :: x < MIGRATE_TYPES && x in Fallbacks(t) && x != MIGRATE_RESERVE ==> Empty(c, o + 1, MAX_ORDER, x))
    && exists i :: 0 <= i < |Fallbacks(t)| && Fallbacks(t)[i] == u
         && forall j :: 0 <= j < i && Fallbacks(t)[j] != MIGRATE_RESERVE ==> c.area[o].lists[Fallbacks(t)[j]] == []
  }

  /** Unmovable and reclaimable requests turn to each other first and to movable blocks last, movable ones to
      reclaimable blocks first; RESERVE is skipped in the table. */
  lemma FallbackOrder()
    ensures Fallbacks(MIGRATE_UNMOVABLE)[..3] == [MIGRATE_RECLAIMABLE, MIGRATE_MOVABLE, MIGRATE_RESERVE]
    ensures Fallbacks(MIGRATE_RECLAIMABLE)[..3] == [MIGRATE_UNMOVABLE, MIGRATE_MOVABLE, MIGRATE_RESERVE]
    ensures Fallbacks(MIGRATE_MOVABLE)[..3] == [MIGRATE_RECLAIMABLE, MIGRATE_UNMOVABLE, MIGRATE_RESERVE]
    ensures forall t: nat :: Fallbacks(t)[3] == MIGRATE_UNMOVABLE
  {}

  lemma SmallestFound(c: Core, order: nat, u: nat)
    requires Shape(c) && u < MIGRATE_TYPES
    ensures var o := SmallestOrder(c.area, order, u);
            if o < MAX_ORDER then Smallest(c, order, u, o) else Empty(c, order, MAX_ORDER, u)
  {}

  lemma DonorFound(c: Core, order: nat, t: nat)
    requires Shape(c)
    ensures match LargestOrder(c, order, MAX_ORDER, t)
            case None => NoDonor(c, order, MAX_ORDER, t)
            case Some(o) => order <= o < MAX_ORDER && BestDonor(c, order, t, o, Donor(c.area[o], t)) && !NoDonor(c, order, MAX_ORDER, t)
  {
    hide Fallbacks, LargestOrder;
    FallbackNull(c, order, t, MAX_ORDER);
    var r := LargestOrder(c, order, MAX_ORDER, t);
    if r.Some? {
      var i := Column(c.area[r.value], t, 0);
      assert Fallbacks(t)[i] == Donor(c.area[r.value], t);
      forall x: nat, o': nat | x in Fallbacks(t) && x != MIGRATE_RESERVE && r.value < o' < MAX_ORDER
        ensures c.area[o'].lists[x] == []
      {
        var j :| 0 <= j < MIGRATE_TYPES - 1 && Fallbacks(t)[j] == x;
        assert Column(c.area[o'], t, 0) == MIGRATE_TYPES - 1;
      }
    }
  }

  /** Which block __rmqueue gives out, from the lists before: the front of its own type's list at the smallest
      order that has one; with none there, the largest block it may steal, the preferred type's if several
      have one; and only with nothing to steal, the front of RESERVE at the smallest order. */
  lemma RmqueueChoice(c: Core, z: Zoning, order: nat, t: nat) returns (o: nat, u: nat)
    requires Ready(c, z) && t < MIGRATE_TYPES && Rmqueue(c, z, order, t).0.Some?
    ensures Shape(c) && o < MAX_ORDER && u < MIGRATE_TYPES && c.area[o].lists[u] != []
    ensures Rmqueue(c, z, order, t).0 == Some(c.area[o].lists[u][0])
    ensures || (u == t && Smallest(c, order, t, o))
            || (t != MIGRATE_RESERVE && Empty(c, order, MAX_ORDER, t) && BestDonor(c, order, t, o, u))
            || (u == MIGRATE_RESERVE != t && Empty(c, order, MAX_ORDER, t) && NoDonor(c, order, MAX_ORDER, t)
                && Smallest(c, order, MIGRATE_RESERVE, o))
  {
    hide Inv, Empty, BestDonor, NoDonor, Smallest, TakeOver, Carve, LargestOrder, Donor, Fallbacks;
    InvShape(c);
    SmallestFound(c, order, t);
    DonorFound(c, order, t);
    SmallestFound(c, order, MIGRATE_RESERVE);
    var r := LargestOrder(c, order, MAX_ORDER, t);
    if SmallestOrder(c.area, order, t) < MAX_ORDER {
      o, u := SmallestOrder(c.area, order, t), t;
    } else if t != MIGRATE_RESERVE && r.Some? {
      o, u := r.value, Donor(c.area[r.value], t);
    } else {
      o, u := SmallestOrder(c.area, order, MIGRATE_RESERVE), MIGRATE_RESERVE;
    }
  }

  lemma {:induction false} TwoLists(ls: seq<seq<nat>>, i: nat, j: nat, p: nat)
    requires i < j < |ls| && p in ls[i] && p in ls[j]
    ensures Mass(ls)[p] >= 2
  {
    if i == 0 {
      UpdateMass(ls[1..], j - 1, []);
      assert p in multiset(ls[0]) && p in multiset(ls[1..][j - 1]);
    } else {
      TwoLists(ls[1..], i - 1, j - 1, p);
    }
  }

  /** A free block is on one list only. */
  lemma OneList(c: Core, p: nat, o: nat, u: nat, o': nat, u': nat)
    requires Inv(c) && Shape(c) && o < MAX_ORDER && u < MIGRATE_TYPES && o' < MAX_ORDER && u' < MIGRATE_TYPES
    requires p in c.area[o].lists[u] && p in c.area[o'].lists[u']
    ensures o == o' && u == u'
  {
    hide Mass, WellFormed, Backed;
    ListedIsHead(c, o, u, p);
    ListedIsHead(c, o', u', p);
    assert Listed(c, o);
    if u < u' { TwoLists(c.area[o].lists, u, u', p); }
    if u' < u { TwoLists(c.area[o].lists, u', u, p); }
  }

  /** A RESERVE block goes to another type's request only when neither that type nor any it may steal from
      has a block of the order or larger. */
  lemma ReserveIsLast(c: Core, z: Zoning, order: nat, t: nat, p: nat, v: nat)
    requires Ready(c, z) && t < MIGRATE_TYPES && t != MIGRATE_RESERVE && v < MAX_ORDER && Shape(c)
    requires Rmqueue(c, z, order, t).0 == Some(p) && p in c.area[v].lists[MIGRATE_RESERVE]
    ensures Empty(c, order, MAX_ORDER, t) && NoDonor(c, order, MAX_ORDER, t) && Smallest(c, order, MIGRATE_RESERVE, v)
  {
    hide Inv, Empty, NoDonor, Smallest, Rmqueue;
    var o, u := RmqueueChoice(c, z, order, t);
    OneList(c, p, o, u, v, MIGRATE_RESERVE);
  }

  /** Pages taken for a per-CPU list are distinct free pages, marked with the type, and all there are if
      fewer come than were asked for. */
  lemma {:induction false} RefillPages(c: Core, z: Zoning, n: nat, t: nat)
    requires Ready(c, z) && t < MIGRATE_TYPES
    ensures var (ps, e) := Refill(c, z, n, t);
            && Ready(e, z) && Shape(e) && |ps| <= n
            && (forall i, j :: 0 <= i < j < |ps| ==> ps[i] != ps[j])
            && (forall p :: p in ps ==> p in Free(c) && p in e.mm && e.mm[p] == Page(false, t))
            && Free(e) == (set p | p in Free(c) && p !in ps)
            && (|ps| < n ==> NothingFor(e, 0, t))
            && (forall q :: q in c.mm && q !in Free(c) ==> q in e.mm && e.mm[q] == c.mm[q])
    decreases n
  {
    hide Inv, Free, Typed, NothingFor, Refill, Rmqueue, Span;
    RmqueueKeeps(c, z, 0, t);
    RmqueueNull(c, z, 0, t);
    RefillTurn(c, z, n, t);
    var (r, d) := Rmqueue(c, z, 0, t);
    if n > 0 && r.Some? {
      RefillOnce(c, d, z, r.value, t);
      var d' := d.(mm := d.mm[r.value := Page(false, t)]);
      RefillPages(d', z, n - 1, t);
    }
  }

  lemma RefillTurn(c: Core, z: Zoning, n: nat, t: nat)
    requires Ready(c, z) && t < MIGRATE_TYPES
    ensures var (r, d) := Rmqueue(c, z, 0, t);
            if n == 0 || r.None? then Refill(c, z, n, t) == ([], c)
            else
              && r.value in d.mm
              && var d' := d.(mm := d.mm[r.value := Page(false, t)]);
              && Ready(d', z)
              && var (ps, e) := Refill(d', z, n - 1, t);
                 Refill(c, z, n, t) == ([r.value] + ps, e)
  {
    hide Rmqueue, Free, WellFormed, Backed, AllListed;
    RmqueueKeeps(c, z, 0, t);
    var (r, d) := Rmqueue(c, z, 0, t);
    if r.Some? { PrivateKeeps(d, r.value, t); }
  }

  lemma RefillOnce(c: Core, d: Core, z: Zoning, p: nat, t: nat)
    requires Allocated(c, d, p, 0)
    ensures p in Free(c) && p in d.mm
    ensures var d' := d.(mm := d.mm[p := Page(false, t)]);
            && p !in Free(d') && Free(d') == Free(c) - {p} && d'.mm.Keys == c.mm.Keys && d'.mm[p] == Page(false, t)
            && forall q :: q in c.mm && q !in Free(c) ==> d'.mm[q] == c.mm[q]
  {
    hide Inv, Free;
    PrivateKeeps(d, p, t);
    StartInside(p, 0);
    assert Span(p, 0) == {p};
  }
}
