/** The zone of page_alloc.c: free_area, mem_map, NR_FREE_PAGES and the per-CPU page lists are
    changed in place. Each method runs with zone->lock held or interrupts off, so it is one step. */
module Zone {
  import opened Bits
  import opened Buddy
  import opened FreeLists
  import opened FreeArea
  import opened PageAlloc

  /** struct per_cpu_pages. */
  datatype Pcp = Pcp(count: int, high: nat, batch: nat, lists: seq<seq<nat>>)

  ghost function PcpMass(pcps: seq<Pcp>): multiset<nat> {
    if pcps == [] then multiset{} else Mass(pcps[0].lists) + PcpMass(pcps[1..])
  }

  lemma {:induction false} PcpMassUpdate(pcps: seq<Pcp>, cpu: nat, x: Pcp)
    requires cpu < |pcps|
    ensures Mass(pcps[cpu].lists) <= PcpMass(pcps)
    ensures PcpMass(pcps[cpu := x]) == PcpMass(pcps) - Mass(pcps[cpu].lists) + Mass(x.lists)
  {
    var r := pcps[cpu := x];
    if cpu == 0 {
      assert r[1..] == pcps[1..];
    } else {
      PcpMassUpdate(pcps[1..], cpu - 1, x);
      assert r[1..] == pcps[1..][cpu - 1 := x];
    }
  }

  class Zone {
    const z: Zoning
    var area: seq<Area>
    var memMap: map<nat, Page>
    var types: seq<nat>
    var nrFreePages: int
    var pcp: seq<Pcp>
    /** Pages in the hands of callers. */
    var held: set<nat>

    ghost function State(): Core
      reads `area, `memMap, `types
    {
      Core(area, memMap, types)
    }

    /** free_area_init_core for one zone: no list has an entry, every page is reserved, and every
        cpu's pageset is set up for the same batch. */
    constructor (z: Zoning, pages: set<nat>, types: seq<nat>, cpus: nat, batch: nat)
      requires Typed(Core([], map p | p in pages :: Page(false, 0), types), z) && z.pageblockOrder >= 1
      ensures Valid() && this.z == z && this.types == types
      ensures held == pages && memMap.Keys == pages && Free(State()) == {}
      ensures |pcp| == cpus && forall i :: 0 <= i < cpus ==> pcp[i] == SetupPageset(batch)
    {
      hide Ready, Accounts, Marked, Free, Mass, PcpMass, Typed;
      this.z := z;
      area := seq(MAX_ORDER, _ => Area(NO_LISTS, 0));
      memMap := map p | p in pages :: Page(false, 0);
      this.types := types;
      nrFreePages := 0;
      pcp := seq(cpus, _ => SetupPageset(batch));
      held := pages;
      new;
      EmptyPcps(pcp);
      FreshZone(State(), z, pcp, held);
    }

    /** setup_pagelist_highmark. */
    method SetHighmark(cpu: nat, high: nat)
      requires Valid() && cpu < |pcp|
      modifies `pcp
      ensures Valid() && pcp == old(pcp)[cpu := Highmark(old(pcp[cpu]), high)]
    {
      hide Inv, Free, Ready, Accounts, Marked, Mass, PcpMass;
      SameLists(pcp, cpu, Highmark(pcp[cpu], high));
      pcp := pcp[cpu := pcp[cpu].(high := high)];
      pcp := pcp[cpu := pcp[cpu].(batch := if high / 4 >= 1 then high / 4 else 1)];
      if high / 4 > PAGE_SHIFT * 8 {
        pcp := pcp[cpu := pcp[cpu].(batch := PAGE_SHIFT * 8)];
      }
      assert pcp == old(pcp)[cpu := Highmark(old(pcp[cpu]), high)];
      assert PcpShape();
    }

    // ---------- the buddy lists alone ----------

    /** list_add, nr_free++ and set_page_order. */
    method Insert(page: nat, o: nat, t: nat)
      requires |area| == MAX_ORDER && o < MAX_ORDER && t < |area[o].lists|
      modifies `area, `memMap
      ensures State() == Put(old(State()), page, o, t)
    {
      area := area[o := Area(Push(area[o].lists, t, page), area[o].nrFree + 1)];
      memMap := memMap[page := Page(true, o)];
    }

    /** list_del, nr_free-- and rmv_page_order. */
    method Remove(page: nat, o: nat)
      requires |area| == MAX_ORDER && o < MAX_ORDER
      modifies `area, `memMap
      ensures State() == Take(old(State()), page, o)
    {
      area := area[o := Area(Unlink(area[o].lists, page), area[o].nrFree - 1)];
      memMap := memMap[page := Page(false, 0)];
    }

    /** __free_one_page. */
    method FreeOneBlock(page: nat, order: nat, t: nat)
      requires Inv(State()) && order < MAX_ORDER && t < MIGRATE_TYPES && Aligned(page, order)
      requires Span(page, order) <= memMap.Keys - Free(State())
      modifies `area, `memMap
      ensures State() == FreeOne(old(State()), page, order, t)
    {
      hide Inv, Free, Span, And, Xor, AndNot, Aligned, BuddyOf, Pow2, Take, Put;
      InvShape(State());
      var p: nat, o: nat := page, order;
      var idx := And(p, Pow2(MAX_ORDER) - 1);
      while o < MAX_ORDER - 1
        invariant o < MAX_ORDER && Inv(State()) && Aligned(p, o) && Shape(State())
        invariant Span(p, o) <= memMap.Keys - Free(State())
        invariant idx == And(p, Pow2(MAX_ORDER) - 1)
        invariant types == old(types)
        invariant FreeOne(State(), p, o, t) == FreeOne(old(State()), page, order, t)
      {
        var buddy := p + (Xor(idx, Pow2(o)) - idx);
        IndexArithmetic(p, idx, o);
        if !IsHead(memMap, buddy, o) {
          break;
        }
        ghost var c := State();
        MergeStep(c, p, o);
        Remove(buddy, o);
        var combined := AndNot(idx, Pow2(o));
        var delta: int := (combined as int) - idx;
        p := p + delta;
        idx := combined;
        o := o + 1;
      }
      Insert(p, o, t);
    }

    /** expand. */
    method ExpandBlock(page: nat, low: nat, high: nat, t: nat)
      requires Shape(State()) && low <= high < MAX_ORDER && t < MIGRATE_TYPES
      modifies `area, `memMap
      ensures State() == Expand(old(State()), page, low, high, t)
    {
      hide Put;
      var h := high;
      var size := Pow2(high);
      while h > low
        invariant low <= h <= high && size == Pow2(h) && Shape(State()) && types == old(types)
        invariant Expand(State(), page, low, h, t) == Expand(old(State()), page, low, high, t)
      {
        h := h - 1;
        size := size / 2;
        ExpandTurn(State(), page, low, h + 1, t);
        Insert(page + size, h, t);
      }
    }

    /** __rmqueue_smallest. */
    method RmqueueSmallest(order: nat, t: nat) returns (r: Option<nat>)
      requires Inv(State()) && t < MIGRATE_TYPES
      modifies `area, `memMap
      ensures (r, State()) == RmSmallest(old(State()), order, t)
    {
      hide Inv, Free, Span, Expand, Take, WellFormed, Backed, AllListed, Mass;
      InvShape(State());
      for co := order to if order < MAX_ORDER then MAX_ORDER else order
        invariant unchanged(this)
        invariant SmallestOrder(area, order, t) == SmallestOrder(area, co, t)
      {
        if area[co].lists[t] == [] {
          continue;
        }
        var page := area[co].lists[t][0];
        ghost var c := State();
        ListedIsHead(c, co, t, page);
        TakeShape(c, page, co);
        Remove(page, co);
        ExpandBlock(page, order, co, t);
        return Some(page);
      }
      return None;
    }

    /** move_freepages. */
    method MoveFreepages(first: nat, last: nat, t: nat) returns (moved: nat)
      requires Shape(State()) && t < MIGRATE_TYPES
      modifies `area
      ensures (State(), moved) == MoveRange(old(State()), first, last, t)
    {
      hide MoveRange;
      var page := first;
      moved := 0;
      while page <= last
        invariant Shape(State())
        invariant var (d, n) := MoveRange(State(), page, last, t);
                  (d, moved + n) == MoveRange(old(State()), first, last, t)
        decreases last + 1 - page
      {
        MoveRangeTurn(State(), page, last, t);
        if page !in memMap || !memMap[page].buddy {
          page := page + 1;
          continue;
        }
        var o := memMap[page].priv;
        area := area[o := area[o].(lists := Push(Unlink(area[o].lists, page), t, page))];
        page := page + Pow2(o);
        moved := moved + Pow2(o);
      }
      MoveRangeNone(State(), page, last, t);
    }

    /** move_freepages_block. */
    method MoveFreepagesBlock(page: nat, t: nat) returns (moved: nat)
      requires Shape(State()) && t < MIGRATE_TYPES
      modifies `area
      ensures (State(), moved) == MoveBlock(old(State()), z, page, t)
    {
      var first := AndNot(page, Pow2(z.pageblockOrder) - 1);
      var last := first + Pow2(z.pageblockOrder) - 1;
      if last >= z.startPfn + z.spanned {
        return 0;
      }
      moved := MoveFreepages(if first < z.startPfn then page else first, last, t);
    }

    /** change_pageblock_range. */
    method ChangePageblockRange(page: nat, co: nat, t: nat)
      requires Typed(State(), z) && t < MIGRATE_TYPES && co >= z.pageblockOrder && BlockInZone(z, page, co)
      modifies `types
      ensures State() == Own(old(State()), z, page, co, t)
    {
      hide ChangeTypes, Shl, Typed;
      var n := Pow2(co - z.pageblockOrder);
      ShlPow2(co - z.pageblockOrder, z.pageblockOrder);
      var p := page;
      while n > 0
        invariant Typed(State(), z) && z.startPfn <= p
        invariant p + Shl(n, z.pageblockOrder) <= z.startPfn + z.spanned
        invariant ChangeTypes(State(), z, p, n, t) == Own(old(State()), z, page, co, t)
      {
        ChangeTypesTurn(State(), z, p, n, t);
        types := types[BlockIndex(z, p) := if z.ungrouped then MIGRATE_UNMOVABLE else t];
        p := p + Pow2(z.pageblockOrder);
        n := n - 1;
      }
      ChangeTypesNone(State(), z, p, t);
    }

    /** __rmqueue_fallback. */
    method RmqueueFallback(order: nat, start: nat) returns (r: Option<nat>)
      requires Ready(State(), z) && start < MIGRATE_TYPES
      modifies `area, `memMap, `types
      ensures (r, State()) == Fallback(old(State()), z, order, start)
    {
      hide Inv, Free, Span, Expand, MoveBlock;
      InvShape(State());
      var co: int := MAX_ORDER - 1;
      while co >= order
        invariant unchanged(this) && -1 <= co < MAX_ORDER
        invariant LargestOrder(State(), order, MAX_ORDER, start) == LargestOrder(State(), order, co + 1, start)
      {
        for i := 0 to MIGRATE_TYPES - 1
          invariant unchanged(this)
          invariant Column(area[co], start, i) == Column(area[co], start, 0)
        {
          var t := Fallbacks(start)[i];
          if t == MIGRATE_RESERVE || area[co].lists[t] == [] {
            continue;
          }
          r := Steal(order, start, co, t);
          return;
        }
        co := co - 1;
      }
      return None;
    }

    /** Page's nr_free is decremented, and its pageblock is moved to the caller's type, and
        claimed when at least half of it moved. */
    method ClaimPageblock(page: nat, co: nat, start: nat)
      requires Shape(State()) && Typed(State(), z) && start < MIGRATE_TYPES && z.pageblockOrder >= 1
      requires co < MAX_ORDER && InZone(z, page)
      modifies `area, `types
      ensures State() == Claim(old(State()), z, page, co, start)
    {
      hide MoveBlock;
      TypedAt(State(), z, page);
      area := area[co := area[co].(nrFree := area[co].nrFree - 1)];
      if co >= z.pageblockOrder / 2 || start == MIGRATE_RECLAIMABLE || z.ungrouped {
        var pages := MoveFreepagesBlock(page, start);
        if pages >= Pow2(z.pageblockOrder - 1) || z.ungrouped {
          types := types[BlockIndex(z, page) := if z.ungrouped then MIGRATE_UNMOVABLE else start];
        }
      }
    }

    /** The body of __rmqueue_fallback's inner loop once a list with an entry is found. */
    method Steal(order: nat, start: nat, co: nat, from: nat) returns (r: Option<nat>)
      requires Ready(State(), z) && start < MIGRATE_TYPES && Shape(State())
      requires LargestOrder(State(), order, MAX_ORDER, start) == Some(co)
      requires from == Donor(area[co], start)
      modifies `area, `memMap, `types
      ensures (r, State()) == Fallback(old(State()), z, order, start)
    {
      hide Inv, Free, Span, Expand, Claim, LargestOrder, Column, Typed, Donor;
      ghost var c := State();
      var page := area[co].lists[from][0];
      var t := from;
      ListedIsHead(c, co, from, page);
      HeadInZone(c, z, page, co);
      ClaimPageblock(page, co, start);
      if Claims(z, co, start) {
        t := start;
      }
      ghost var c1 := State();
      area := area[co := area[co].(lists := Unlink(area[co].lists, page))];
      memMap := memMap[page := Page(false, 0)];
      assert State() == Drop(c1, page, co);
      DropTyped(c1, z, page, co);
      if co >= z.pageblockOrder {
        ChangePageblockRange(page, co, start);
      }
      assert State() == Own(Drop(c1, page, co), z, page, co, start);
      ExpandBlock(page, order, co, t);
      r := Some(page);
    }

    /** __rmqueue. */
    method RmqueueAny(order: nat, migratetype: nat) returns (r: Option<nat>)
      requires Ready(State(), z) && migratetype < MIGRATE_TYPES
      modifies `area, `memMap, `types
      ensures (r, State()) == Rmqueue(old(State()), z, order, migratetype)
    {
      hide Inv, Free, Span, Fallback, RmSmallest;
      var t: nat := migratetype;
      while true
        invariant unchanged(this) && t < MIGRATE_TYPES
        invariant Rmqueue(State(), z, order, t) == Rmqueue(old(State()), z, order, migratetype)
        decreases t != MIGRATE_RESERVE
      {
        InvShape(State());
        RmSmallestKeeps(State(), order, t);
        FallbackKeeps(State(), z, order, t);
        r := RmqueueSmallest(order, t);
        if r.Some? || t == MIGRATE_RESERVE {
          return;
        }
        r := RmqueueFallback(order, t);
        if r.Some? {
          return;
        }
        t := MIGRATE_RESERVE;
      }
    }

    // ---------- the per-CPU page lists ----------

    ghost predicate PcpShape()
      reads `pcp
    {
      forall i :: 0 <= i < |pcp| ==> |pcp[i].lists| == MIGRATE_PCPTYPES
    }

    ghost predicate Sound()
      reads `area, `memMap, `types, `pcp, `held
    {
      && Ready(State(), z) && PcpShape()
      && Accounts(Free(State()), PcpMass(pcp), held, memMap.Keys)
      && Marked(memMap, PcpMass(pcp))
    }

    /** The invariant between operations: the buddy lists are sound, every page is accounted
        for, NR_FREE_PAGES is the number of free pages, and pcp->count the number of pages listed. */
    ghost predicate Valid()
      reads this
    {
      && Sound()
      && nrFreePages == |Free(State())|
      && (forall i :: 0 <= i < |pcp| ==> PcpValid(pcp[i]))
    }

    /** The last page of list t goes back to the buddy lists, under the type in page_private. */
    method DrainOne(cpu: nat, t: nat)
      requires Sound() && cpu < |pcp| && t < MIGRATE_PCPTYPES && pcp[cpu].lists[t] != []
      modifies `area, `memMap, `pcp
      ensures Sound() && memMap.Keys == old(memMap.Keys)
      ensures var s := old(pcp[cpu].lists[t]);
              && pcp == old(pcp)[cpu := old(pcp[cpu]).(lists := old(pcp[cpu].lists)[t := s[..|s| - 1]])]
              && Free(State()) == old(Free(State())) + {s[|s| - 1]}
              && |Free(State())| == old(|Free(State())|) + 1
      ensures var p := old(pcp[cpu].lists[t][|pcp[cpu].lists[t]| - 1]);
              && Freeable(old(State()), p)
              && State() == FreeOne(old(State()), p, 0, old(memMap)[p].priv)
    {
      hide Inv, Free, Span, FreeOne, Accounts, Marked, Ready, Mass, PcpMass, Aligned;
      ReadyInv(State(), z);
      DrainFacts(State(), z, pcp, held, cpu, t);
      var s := pcp[cpu].lists[t];
      var page := s[|s| - 1];
      pcp := pcp[cpu := TailPopped(pcp[cpu], t)];
      FreeOneBlock(page, 0, memMap[page].priv);
    }

    /** The inner loop of free_pcppages_bulk: pages leave list t until the count or the credit is used
        up, or the list is empty. */
    method DrainTurn(cpu: nat, t: nat, credit: nat, count: nat) returns (batchFree: nat, left: nat)
      requires Sound() && cpu < |pcp| && t < MIGRATE_PCPTYPES && pcp[cpu].lists[t] != [] && credit > 0 && count > 0
      modifies `area, `memMap, `pcp
      ensures Sound() && memMap.Keys == old(memMap.Keys)
      ensures |pcp| == old(|pcp|) && pcp == old(pcp)[cpu := pcp[cpu]]
      ensures var k := Turn(old(pcp[cpu].lists[t]), credit, count);
              && left == count - k && (left > 0 ==> batchFree == credit - k)
              && |Free(State())| == old(|Free(State())|) + k
              && pcp[cpu].lists == Shorter(old(pcp[cpu].lists), t, k)
              && Drained(old(pcp[cpu]), pcp[cpu], k)
              && State() == FreeAll(old(State()), Tail(old(pcp[cpu].lists[t]), k))
    {
      hide Inv, Free, Span, Ready, Accounts, Marked, Mass, PcpMass, Drained, Shorter, FreeAll, Freeable, Tail, FreeOne;
      ghost var ls := pcp[cpu].lists;
      FreeAllNone(State());
      TailNone(ls[t]);
      DrainedNone(pcp[cpu]);
      ShorterNone(ls, t);
      batchFree, left := credit, count;
      var more := true;
      while more
        invariant Sound() && memMap.Keys == old(memMap.Keys)
        invariant left <= count && |Free(State())| == old(|Free(State())|) + (count - left)
        invariant |pcp| == old(|pcp|) && pcp == old(pcp)[cpu := pcp[cpu]]
        invariant Drained(old(pcp[cpu]), pcp[cpu], count - left)
        invariant count - left <= |ls[t]| && pcp[cpu].lists == Shorter(ls, t, count - left)
        invariant State() == FreeAll(old(State()), Tail(ls[t], count - left))
        invariant if more then count - left < Turn(ls[t], credit, count) else count - left == Turn(ls[t], credit, count)
        invariant more || left > 0 ==> batchFree == credit - (count - left)
        decreases left, more
      {
        ghost var p0 := pcp[cpu];
        ShorterMore(ls, t, count - left);
        FreeAllMore(old(State()), ls[t], count - left);
        DrainOne(cpu, t);
        DrainedStep(old(pcp[cpu]), p0, count - left, t);
        left := left - 1;
        if left == 0 {
          more := false;
        } else {
          batchFree := batchFree - 1;
          more := batchFree != 0 && pcp[cpu].lists[t] != [];
        }
      }
    }

    /** free_pcppages_bulk: count pages leave the tails of cpu's lists, round robin, for the
        buddy lists. */
    method FreePcppagesBulk(cpu: nat, count: nat)
      requires Sound() && cpu < |pcp| && count <= |Mass(pcp[cpu].lists)|
      modifies `area, `memMap, `pcp, `nrFreePages
      ensures Sound() && memMap.Keys == old(memMap.Keys)
      ensures nrFreePages == old(nrFreePages) + count
      ensures |Free(State())| == old(|Free(State())|) + count
      ensures |pcp| == old(|pcp|) && pcp == old(pcp)[cpu := pcp[cpu]]
      ensures Drained(old(pcp[cpu]), pcp[cpu], count)
      ensures pcp[cpu].lists == RoundRobin(old(pcp[cpu].lists), 0, 0, count)
      ensures State() == FreeAll(old(State()), RoundPages(old(pcp[cpu].lists), 0, 0, count))
    {
      hide Inv, Free, Span, Ready, Accounts, Marked, Mass, PcpMass, Drained, RoundRobin, RoundPages, FreeAll, Tail, Ahead, Shorter, Turn;
      DrainedNone(pcp[cpu]);
      nrFreePages := nrFreePages + count;
      var migratetype: nat, batchFree: nat, left: nat := 0, 0, count;
      while left > 0
        invariant Sound() && memMap.Keys == old(memMap.Keys) && migratetype < MIGRATE_PCPTYPES
        invariant nrFreePages == old(nrFreePages) + count && left <= count
        invariant |Free(State())| == old(|Free(State())|) + (count - left)
        invariant |pcp| == old(|pcp|) && pcp == old(pcp)[cpu := pcp[cpu]]
        invariant Drained(old(pcp[cpu]), pcp[cpu], count - left)
        invariant RoundRobin(pcp[cpu].lists, migratetype, batchFree, left) == RoundRobin(old(pcp[cpu].lists), 0, 0, count)
        invariant FreeAll(State(), RoundPages(pcp[cpu].lists, migratetype, batchFree, left)) ==
                  FreeAll(old(State()), RoundPages(old(pcp[cpu].lists), 0, 0, count))
      {
        ghost var ls, t0, credit, n0 := pcp[cpu].lists, migratetype, batchFree, left;
        SomeListed(old(pcp[cpu]), pcp[cpu], count, left);
        RoundTurn(ls, t0, credit, n0);
        ghost var skips := 1;
        label Search:
        batchFree := batchFree + 1;
        migratetype := if migratetype + 1 == MIGRATE_PCPTYPES then 0 else migratetype + 1;
        while pcp[cpu].lists[migratetype] == []
          invariant unchanged@Search(this) && migratetype < MIGRATE_PCPTYPES
          invariant 1 <= skips <= Ahead(ls, t0) && batchFree == credit + skips && migratetype == (t0 + skips) % MIGRATE_PCPTYPES
          decreases MIGRATE_PCPTYPES - skips
        {
          AheadAt(ls, t0, skips);
          skips := skips + 1;
          batchFree := batchFree + 1;
          migratetype := if migratetype + 1 == MIGRATE_PCPTYPES then 0 else migratetype + 1;
        }
        AheadAt(ls, t0, skips);
        ghost var p0, k := pcp[cpu], Turn(ls[migratetype], batchFree, left);
        FreeAllConcat(State(), Tail(ls[migratetype], k), RoundPages(Shorter(ls, migratetype, k), migratetype, batchFree - k, left - k));
        batchFree, left := DrainTurn(cpu, migratetype, batchFree, left);
        DrainedMore(old(pcp[cpu]), p0, pcp[cpu], count - n0, k);
        if left == 0 {
          RoundNone(pcp[cpu].lists, migratetype, batchFree);
          RoundNone(pcp[cpu].lists, migratetype, credit + skips - k);
        }
      }
      RoundNone(pcp[cpu].lists, migratetype, batchFree);
      FreeAllNone(State());
    }

    /** pcp->count := count, in the middle of an operation that left the lists as they are. */
    method SetCount(cpu: nat, count: int)
      requires Sound() && cpu < |pcp|
      modifies `pcp
      ensures Sound() && pcp == old(pcp)[cpu := old(pcp[cpu]).(count := count)]
    {
      hide Inv, Free, Span, Ready, Accounts, Marked, Mass, PcpMass;
      SameLists(pcp, cpu, pcp[cpu].(count := count));
      pcp := pcp[cpu := pcp[cpu].(count := count)];
      assert PcpShape();
    }

    /** drain_zone_pages. */
    method DrainZonePages(cpu: nat)
      requires Valid() && cpu < |pcp|
      modifies `area, `memMap, `pcp, `nrFreePages
      ensures Valid() && memMap.Keys == old(memMap.Keys)
      ensures |pcp| == old(|pcp|) && pcp == old(pcp)[cpu := pcp[cpu]]
      ensures var n := if old(pcp[cpu].count) >= old(pcp[cpu].batch) then old(pcp[cpu].batch) else old(pcp[cpu].count);
              && n >= 0 && pcp[cpu] == old(pcp[cpu]).(count := pcp[cpu].count, lists := RoundRobin(old(pcp[cpu].lists), 0, 0, n))
              && State() == FreeAll(old(State()), RoundPages(old(pcp[cpu].lists), 0, 0, n))
    {
      hide Sound, Inv, Free, Span, Mass, PcpMass, RoundRobin, RoundPages, FreeAll;
      var toDrain := if pcp[cpu].count >= pcp[cpu].batch then pcp[cpu].batch else pcp[cpu].count;
      FreePcppagesBulk(cpu, toDrain);
      SetCount(cpu, pcp[cpu].count - toDrain);
    }

    /** drain_pages, for this zone. */
    method DrainPages(cpu: nat)
      requires Valid() && cpu < |pcp|
      modifies `area, `memMap, `pcp, `nrFreePages
      ensures Valid() && memMap.Keys == old(memMap.Keys)
      ensures |pcp| == old(|pcp|) && pcp == old(pcp)[cpu := pcp[cpu]] && Mass(pcp[cpu].lists) == multiset{}
      ensures State() == FreeAll(old(State()), RoundPages(old(pcp[cpu].lists), 0, 0, old(pcp[cpu].count)))
    {
      hide Sound, Inv, Free, Span, Mass, PcpMass, RoundRobin, RoundPages, FreeAll;
      FreePcppagesBulk(cpu, pcp[cpu].count);
      SetCount(cpu, 0);
    }

    /** drain_all_pages, for this zone. */
    method DrainAllPages()
      requires Valid()
      modifies `area, `memMap, `pcp, `nrFreePages
      ensures Valid() && memMap.Keys == old(memMap.Keys) && |pcp| == old(|pcp|)
      ensures PcpMass(pcp) == multiset{}
    {
      hide Valid, Inv, Free, Span, Mass;
      for cpu := 0 to |pcp|
        invariant Valid() && memMap.Keys == old(memMap.Keys) && |pcp| == old(|pcp|)
        invariant forall i :: 0 <= i < cpu ==> Mass(pcp[i].lists) == multiset{}
      {
        DrainPages(cpu);
      }
      NoPcpMass(pcp);
    }

    /** free_one_page. */
    method FreeOnePage(page: nat, order: nat, t: nat)
      requires Valid() && order < MAX_ORDER && t < MIGRATE_TYPES && Aligned(page, order)
      requires Span(page, order) <= held
      modifies `area, `memMap, `nrFreePages, `held
      ensures Valid() && memMap.Keys == old(memMap.Keys)
      ensures held == old(held) - Span(page, order)
      ensures State() == FreeOne(old(State()), page, order, t)
    {
      hide Inv, Free, Span, Ready, Accounts, Marked, Mass, PcpMass, FreeOne, Aligned;
      ghost var c := State();
      ReadyInv(c, z);
      FromHeld(Free(c), PcpMass(pcp), held, memMap.Keys, Span(page, order));
      FreeHeldBlock(c, z, PcpMass(pcp), held, page, order, t);
      nrFreePages := nrFreePages + Pow2(order);
      FreeOneBlock(page, order, t);
      held := held - Span(page, order);
    }

    /** __free_pages_ok: the block goes to the list of its pageblock's type. */
    method FreePagesOk(page: nat, order: nat)
      requires Valid() && order < MAX_ORDER && Aligned(page, order)
      requires Span(page, order) <= held
      modifies `area, `memMap, `nrFreePages, `held
      ensures Valid() && memMap.Keys == old(memMap.Keys)
      ensures held == old(held) - Span(page, order)
      ensures |old(State()).area| == MAX_ORDER && PageblockType(old(State()), z, page) < MIGRATE_TYPES && Shape(old(State()))
      ensures State() == FreeOne(old(State()), page, order, PageblockType(old(State()), z, page))
    {
      hide Sound, Inv, Free, Span, Mass, PcpMass, FreeOne, Aligned;
      StartInside(page, order);
      InHeld(page);
      InvShape(State());
      FreeOnePage(page, order, types[BlockIndex(z, page)]);
    }

    /** set_page_private on a page its caller is giving back. */
    method SetPrivate(page: nat, v: nat)
      requires Valid() && page in held && v < MIGRATE_TYPES
      modifies `memMap
      ensures Valid() && page in old(memMap) && memMap == old(memMap)[page := Page(false, v)]
      ensures Free(State()) == old(Free(State()))
    {
      hide Inv, Free, Span, Ready, Accounts, Marked, Mass, PcpMass;
      ghost var c, m := State(), PcpMass(pcp);
      HeldToPcp(Free(c), m, held, memMap.Keys, page);
      MarkPage(c, z, m, page, v);
      memMap := memMap[page := Page(memMap[page].buddy, v)];
      FewerMarked(memMap, m, page);
    }

    /** The page, marked with its type, joins one of cpu's lists. */
    method Queue(cpu: nat, page: nat, migratetype: nat, cold: bool)
      requires Valid() && cpu < |pcp| && page in held && migratetype < MIGRATE_TYPES
      requires page in memMap && memMap[page] == Page(false, migratetype)
      modifies `pcp, `held
      ensures Valid() && held == old(held) - {page}
      ensures pcp == old(pcp)[cpu := Queued(old(pcp[cpu]), page, PcpType(migratetype), cold)]
    {
      hide Inv, Free, Span, Ready, Accounts, Marked, Mass, PcpMass;
      ghost var c, m := State(), PcpMass(pcp);
      HeldToPcp(Free(c), m, held, memMap.Keys, page);
      MoreMarked(memMap, m, page);
      ghost var q := Queued(pcp[cpu], page, PcpType(migratetype), cold);
      QueuedMass(pcp[cpu], page, PcpType(migratetype), cold);
      PcpMassUpdate(pcp, cpu, q);
      var t := PcpType(migratetype);
      var list := pcp[cpu].lists[t];
      list := if cold then list + [page] else [page] + list;
      pcp := pcp[cpu := pcp[cpu].(lists := pcp[cpu].lists[t := list], count := pcp[cpu].count + 1)];
      held := held - {page};
      assert PcpMass(pcp) == m + multiset{page};
      assert PcpShape();
    }

    /** free_hot_cold_page. */
    method FreeHotColdPage(cpu: nat, page: nat, cold: bool)
      requires Valid() && cpu < |pcp| && page in held
      modifies `area, `memMap, `pcp, `nrFreePages, `held
      ensures Valid() && memMap.Keys == old(memMap.Keys) && held == old(held) - {page}
      ensures |pcp| == old(|pcp|) && pcp == old(pcp)[cpu := pcp[cpu]]
      ensures var t := PageblockType(old(State()), z, page);
              if t == MIGRATE_ISOLATE then
                pcp == old(pcp) && Free(State()) == old(Free(State())) + {page}
              else
                && QueuedOrDrained(old(pcp[cpu]), pcp[cpu], page, PcpType(t), cold)
                && (old(pcp[cpu]).count + 1 < old(pcp[cpu]).high ==> Free(State()) == old(Free(State())))
      ensures var t, p := PageblockType(old(State()), z, page), old(pcp[cpu]);
              var c := old(State()).(mm := old(memMap)[page := Page(false, t)]);
              && Shape(c)
              && State() == if t == MIGRATE_ISOLATE then FreeOne(c, page, 0, t)
                            else if p.count + 1 < p.high then c
                            else FreeAll(c, RoundPages(Queued(p, page, PcpType(t), cold).lists, 0, 0, p.batch))
    {
      hide Sound, Inv, Free, Span, Mass, PcpMass, FreeOne, Aligned, RoundRobin, RoundPages, FreeAll;
      InHeld(page);
      var migratetype := types[BlockIndex(z, page)];
      SetPrivate(page, migratetype);
      SoundShape();
      assert State() == old(State()).(mm := old(memMap)[page := Page(false, migratetype)]);
      if migratetype == MIGRATE_ISOLATE {
        InHeld(page);
        SinglePage(page);
        FreeOneKeeps(State(), page, 0, migratetype);
        FreeOnePage(page, 0, migratetype);
        return;
      }
      Queue(cpu, page, migratetype, cold);
      if pcp[cpu].count >= pcp[cpu].high {
        FreePcppagesBulk(cpu, pcp[cpu].batch);
        SetCount(cpu, pcp[cpu].count - pcp[cpu].batch);
      }
    }

    lemma InHeld(page: nat)
      requires Valid() && page in held
      ensures page in memMap && page !in Free(State()) && Inv(State()) && Span(page, 0) == {page}
      ensures z.startPfn <= page && BlockIndex(z, page) < |types| && types[BlockIndex(z, page)] < MIGRATE_TYPES
      ensures forall i :: 0 <= i < |pcp| ==> |pcp[i].lists| == MIGRATE_PCPTYPES
    {
      hide Inv, Free, Span, Mass, PcpMass;
      SinglePage(page);
      FromHeld(Free(State()), PcpMass(pcp), held, memMap.Keys, {page});
    }

    /** One page is allocated and put at position `at` of list t, marked with its type. */
    method RefillOne(cpu: nat, t: nat, at: nat) returns (r: Option<nat>)
      requires Sound() && cpu < |pcp| && t < MIGRATE_PCPTYPES && at <= |pcp[cpu].lists[t]|
      modifies `area, `memMap, `types, `pcp
      ensures Sound() && memMap.Keys == old(memMap.Keys)
      ensures r == Rmqueue(old(State()), z, 0, t).0
      ensures r.None? ==> State() == old(State()) && pcp == old(pcp)
      ensures r.Some? ==>
                && var d := Rmqueue(old(State()), z, 0, t).1;
                && State() == d.(mm := d.mm[r.value := Page(false, t)])
                && pcp == old(pcp)[cpu := Inserted(old(pcp[cpu]), t, at, r.value)]
                && |Free(State())| == old(|Free(State())|) - 1
                && |Mass(pcp[cpu].lists)| == old(|Mass(pcp[cpu].lists)|) + 1
    {
      hide Inv, Free, Span, Ready, Accounts, Marked, Mass, PcpMass, Rmqueue;
      ghost var c, m := State(), PcpMass(pcp);
      RmqueueKeeps(c, z, 0, t);
      r := RmqueueAny(0, t);
      if r.Some? {
        var page := r.value;
        TakePcpPage(c, z, m, held, t);
        memMap := memMap[page := memMap[page].(priv := t)];
        var list := pcp[cpu].lists[t];
        InsertMass(pcp[cpu].lists, t, at, page);
        PcpMassUpdate(pcp, cpu, Inserted(pcp[cpu], t, at, page));
        pcp := pcp[cpu := pcp[cpu].(lists := pcp[cpu].lists[t := list[..at] + [page] + list[at..]])];
        assert PcpMass(pcp) == m + multiset{page};
        assert PcpShape();
      }
    }

    /** rmqueue_bulk for single pages: up to n pages join list t of cpu, in allocation order at
        the front, or in reverse order at the back when cold. */
    method RmqueueBulk(cpu: nat, n: nat, t: nat, cold: bool) returns (taken: nat)
      requires Sound() && cpu < |pcp| && t < MIGRATE_PCPTYPES
      modifies `area, `memMap, `types, `pcp, `nrFreePages
      ensures Sound() && memMap.Keys == old(memMap.Keys)
      ensures var (ps, e) := Refill(old(State()), z, n, t);
              && State() == e && taken == |ps|
              && pcp == old(pcp)[cpu := Refilled(old(pcp[cpu]), t, ps, cold)]
      ensures nrFreePages == old(nrFreePages) - taken
      ensures |Free(State())| == old(|Free(State())|) - taken
      ensures |Mass(pcp[cpu].lists)| == old(|Mass(pcp[cpu].lists)|) + taken
    {
      hide Sound, Ready, Inv, Free, Rmqueue, Mass, Refilled, Inserted, Reverse, Shape;
      SoundShape();
      var at := if cold then |pcp[cpu].lists[t]| else 0;
      taken := 0;
      ghost var ps: seq<nat> := [];
      RefilledNone(pcp[cpu], t, cold);
      assert pcp == pcp[cpu := pcp[cpu]];
      while taken < n
        invariant taken <= n && taken == |ps| && Sound() && memMap.Keys == old(memMap.Keys)
        invariant at == if cold then old(|pcp[cpu].lists[t]|) else taken
        invariant pcp == old(pcp)[cpu := Refilled(old(pcp[cpu]), t, ps, cold)]
        invariant |Free(State())| == old(|Free(State())|) - taken
        invariant nrFreePages == old(nrFreePages) && Ready(State(), z)
        invariant |Mass(pcp[cpu].lists)| == old(|Mass(pcp[cpu].lists)|) + taken
        invariant var (qs, e) := Refill(State(), z, n - taken, t);
                  ps + qs == Refill(old(State()), z, n, t).0 && e == Refill(old(State()), z, n, t).1
      {
        SoundShape();
        ghost var qs := Refill(State(), z, n - taken, t).0;
        RefilledStep(old(pcp[cpu]), t, ps, cold, 0);
        var r := RefillOne(cpu, t, at);
        SoundShape();
        if r.None? {
          break;
        }
        RefilledStep(old(pcp[cpu]), t, ps, cold, r.value);
        assert ps + qs == ps + [r.value] + qs[1..];
        ps := ps + [r.value];
        at := if cold then at else at + 1;
        taken := taken + 1;
      }
      SoundShape();
      assert Refill(State(), z, n - taken, t).0 == [];
      assert ps == Refill(old(State()), z, n, t).0;
      nrFreePages := nrFreePages - taken;
    }

    lemma SoundShape()
      requires Sound()
      ensures PcpShape() && Ready(State(), z) && Shape(State())
    {}

    /** One end of list t leaves cpu's lists for the caller. */
    method TakeListed(cpu: nat, t: nat, cold: bool) returns (page: nat)
      requires Sound() && cpu < |pcp| && t < MIGRATE_PCPTYPES && PcpShape() && pcp[cpu].lists[t] != []
      modifies `memMap, `pcp, `held
      ensures Sound() && memMap.Keys == old(memMap.Keys)
      ensures page == End(old(pcp[cpu].lists[t]), cold) && page !in old(held) && held == old(held) + {page}
      ensures pcp == old(pcp)[cpu := Popped(old(pcp[cpu]), t, cold)]
      ensures |Mass(pcp[cpu].lists)| == old(|Mass(pcp[cpu].lists)|) - 1
      ensures page in old(memMap) && memMap == old(memMap)[page := Page(false, 0)]
      ensures Free(State()) == old(Free(State()))
    {
      hide Inv, Free, Ready, Accounts, Marked, Mass, PcpMass;
      var list := pcp[cpu].lists[t];
      page := if cold then list[|list| - 1] else list[0];
      PopFacts(State(), z, pcp, held, cpu, t, cold);
      pcp := pcp[cpu := pcp[cpu].(lists := pcp[cpu].lists[t := if cold then list[..|list| - 1] else list[1..]],
                                  count := pcp[cpu].count - 1)];
      assert pcp == old(pcp)[cpu := Popped(old(pcp[cpu]), t, cold)];
      assert PcpShape();
      hide Popped, PcpShape;
      memMap := memMap[page := memMap[page].(priv := 0)];
      held := held + {page};
    }

    /** buffered_rmqueue's refill of an empty list, which fails only when not one page is to be had. */
    method RefillList(cpu: nat, t: nat, cold: bool)
      requires Valid() && cpu < |pcp| && t < MIGRATE_PCPTYPES && PcpShape() && pcp[cpu].lists[t] == []
      modifies `area, `memMap, `types, `pcp, `nrFreePages
      ensures Valid() && memMap.Keys == old(memMap.Keys)
      ensures |pcp| == old(|pcp|) && t < |pcp[cpu].lists| && Ready(old(State()), z)
      ensures var (r, d) := Rmqueue(old(State()), z, 0, t);
              if r.None? then State() == old(State()) && pcp == old(pcp)
              else pcp[cpu].lists[t] != [] && End(pcp[cpu].lists[t], cold) == r.value
    {
      hide Sound, Ready, Inv, Free, Mass, Rmqueue;
      SoundShape();
      ghost var c := State();
      var n := RmqueueBulk(cpu, pcp[cpu].batch, t, cold);
      SetCount(cpu, pcp[cpu].count + n);
      ghost var ps := Refill(c, z, old(pcp[cpu]).batch, t).0;
      assert pcp[cpu] == Refilled(old(pcp[cpu]), t, ps, cold).(count := old(pcp[cpu]).count + n);
      if ps == [] {
        RefilledNone(old(pcp[cpu]), t, cold);
        assert pcp == old(pcp);
      } else {
        assert ps[0] == Rmqueue(c, z, 0, t).0.value;
      }
    }

    /** buffered_rmqueue. */
    method BufferedRmqueue(cpu: nat, order: nat, t: nat, cold: bool) returns (r: Option<nat>)
      requires Valid() && cpu < |pcp| && t < MIGRATE_TYPES && (order == 0 ==> t < MIGRATE_PCPTYPES)
      modifies `area, `memMap, `types, `pcp, `nrFreePages, `held
      ensures Valid() && memMap.Keys == old(memMap.Keys) && |pcp| == old(|pcp|)
      ensures r.Some? ==>
                && Aligned(r.value, order) && Span(r.value, order) !! old(held)
                && held == old(held) + Span(r.value, order)
      ensures r.None? ==> held == old(held) && State() == old(State()) && pcp == old(pcp)
      ensures r.None? <==> (order == 0 ==> old(pcp[cpu].lists[t]) == []) && Rmqueue(old(State()), z, order, t).0.None?
      ensures order > 0 ==> r == Rmqueue(old(State()), z, order, t).0 && State() == Rmqueue(old(State()), z, order, t).1
      ensures order == 0 && old(pcp[cpu].lists[t]) != [] ==>
                && r == Some(End(old(pcp[cpu].lists[t]), cold))
                && pcp == old(pcp)[cpu := Popped(old(pcp[cpu]), t, cold)]
                && Free(State()) == old(Free(State()))
      ensures order == 0 && old(pcp[cpu].lists[t]) == [] && r.Some? ==> r == Rmqueue(old(State()), z, 0, t).0
    {
      hide Sound, Ready, Inv, Free, Span, Mass, PcpMass, Rmqueue;
      SoundShape();
      if order == 0 {
        if pcp[cpu].lists[t] == [] {
          RefillList(cpu, t, cold);
          if pcp[cpu].lists[t] == [] {
            return None;
          }
        }
        SoundShape();
        var page := TakeListed(cpu, t, cold);
        SinglePage(page);
        return Some(page);
      }
      r := TakeBlock(order, t);
    }

    /** buffered_rmqueue for orders above 0. */
    method TakeBlock(order: nat, t: nat) returns (r: Option<nat>)
      requires Valid() && t < MIGRATE_TYPES
      modifies `area, `memMap, `types, `nrFreePages, `held
      ensures Valid() && memMap.Keys == old(memMap.Keys)
      ensures (r, State()) == Rmqueue(old(State()), z, order, t)
      ensures r.Some? ==>
                && Aligned(r.value, order) && Span(r.value, order) !! old(held)
                && held == old(held) + Span(r.value, order)
      ensures r.None? ==> held == old(held) && State() == old(State())
    {
      hide Inv, Free, Span, Ready, Accounts, Marked, Mass, PcpMass, Rmqueue;
      ghost var c, m := State(), PcpMass(pcp);
      TakeHeldBlock(c, z, m, held, order, t);
      r := RmqueueAny(order, t);
      if r.Some? {
        nrFreePages := nrFreePages - Pow2(order);
        held := held + Span(r.value, order);
      }
    }
  }

  /** The entry a hot or a cold request takes. */
  function End(s: seq<nat>, cold: bool): nat
    requires s != []
  {
    if cold then s[|s| - 1] else s[0]
  }

  /** The per-CPU lists after End is taken off list t. */
  function Popped(p: Pcp, t: nat, cold: bool): Pcp
    requires t < |p.lists| && p.lists[t] != []
  {
    var s := p.lists[t];
    p.(lists := p.lists[t := if cold then s[..|s| - 1] else s[1..]], count := p.count - 1)
  }

  lemma PoppedMass(p: Pcp, t: nat, cold: bool)
    requires t < |p.lists| && p.lists[t] != []
    ensures var page := End(p.lists[t], cold);
            && page in Mass(p.lists)
            && Mass(Popped(p, t, cold).lists) == Mass(p.lists) - multiset{page}
            && |Mass(Popped(p, t, cold).lists)| == |Mass(p.lists)| - 1
  {
    var s := p.lists[t];
    if cold {
      TailMass(p.lists, t);
    } else {
      assert s == [s[0]] + s[1..];
      UpdateMass(p.lists, t, s[1..]);
      assert s[0] in multiset(s);
    }
  }

  lemma FewerMarked(mm: map<nat, Page>, m: multiset<nat>, p: nat)
    requires Marked(mm, m + multiset{p})
    ensures Marked(mm, m)
  {}

  lemma MoreMarked(mm: map<nat, Page>, m: multiset<nat>, p: nat)
    requires Marked(mm, m) && p in mm && mm[p].priv < MIGRATE_TYPES
    ensures Marked(mm, m + multiset{p})
  {}

  /** The per-CPU lists after the last page of list t is taken. */
  function TailPopped(p: Pcp, t: nat): Pcp
    requires t < |p.lists| && p.lists[t] != []
  {
    p.(lists := p.lists[t := p.lists[t][..|p.lists[t]| - 1]])
  }

  /** What freeing the last page of a per-CPU list preserves. */
  lemma DrainFacts(c: Core, z: Zoning, pcps: seq<Pcp>, h: set<nat>, cpu: nat, t: nat)
    requires Ready(c, z) && Marked(c.mm, PcpMass(pcps)) && Accounts(Free(c), PcpMass(pcps), h, c.mm.Keys)
    requires cpu < |pcps| && t < |pcps[cpu].lists| && pcps[cpu].lists[t] != []
    ensures var s, x := pcps[cpu].lists[t], TailPopped(pcps[cpu], t);
            var page := s[|s| - 1];
            && page in c.mm && c.mm[page].priv < MIGRATE_TYPES && Aligned(page, 0)
            && Inv(c) && Shape(c) && Span(page, 0) <= c.mm.Keys - Free(c)
            && var d := FreeOne(c, page, 0, c.mm[page].priv);
            && Ready(d, z) && Free(d) == Free(c) + {page} && |Free(d)| == |Free(c)| + 1 && d.mm.Keys == c.mm.Keys
            && Marked(d.mm, PcpMass(pcps[cpu := x])) && Accounts(Free(d), PcpMass(pcps[cpu := x]), h, d.mm.Keys)
  {
    hide Inv, Free, Span, FreeOne, Accounts, Marked, Ready, Mass, PcpMass, Shape, Aligned;
    ReadyInv(c, z);
    var s := pcps[cpu].lists[t];
    var page := s[|s| - 1];
    TailMass(pcps[cpu].lists, t);
    PcpMassUpdate(pcps, cpu, TailPopped(pcps[cpu], t));
    FromPcp(Free(c), PcpMass(pcps), h, c.mm.Keys, page);
    FreePcpPage(c, z, PcpMass(pcps), h, page);
    TakenFrom(PcpMass(pcps), Mass(pcps[cpu].lists), page);
  }

  lemma TakenFrom(m: multiset<nat>, a: multiset<nat>, p: nat)
    requires a <= m && p in a
    ensures m - a + (a - multiset{p}) == m - multiset{p}
  {}

  lemma UnmarkPage(mm: map<nat, Page>, m: multiset<nat>, p: nat)
    requires Marked(mm, m + multiset{p})
    ensures Marked(mm, m - multiset{p})
  {}

  /** What handing one end of a per-CPU list to the caller preserves. */
  lemma PopFacts(c: Core, z: Zoning, pcps: seq<Pcp>, h: set<nat>, cpu: nat, t: nat, cold: bool)
    requires Ready(c, z) && Marked(c.mm, PcpMass(pcps)) && Accounts(Free(c), PcpMass(pcps), h, c.mm.Keys)
    requires cpu < |pcps| && t < |pcps[cpu].lists| && pcps[cpu].lists[t] != []
    ensures var page, x := End(pcps[cpu].lists[t], cold), Popped(pcps[cpu], t, cold);
            && page in c.mm && !c.mm[page].buddy && page !in h
            && |Mass(x.lists)| == |Mass(pcps[cpu].lists)| - 1
            && var d := c.(mm := c.mm[page := Page(false, 0)]);
            && Ready(d, z) && Free(d) == Free(c) && d.mm.Keys == c.mm.Keys
            && Marked(d.mm, PcpMass(pcps[cpu := x]))
            && Accounts(Free(d), PcpMass(pcps[cpu := x]), h + {page}, d.mm.Keys)
  {
    hide Inv, Free, Ready, Accounts, Marked, Mass, PcpMass, Popped;
    var m, page, x := PcpMass(pcps), End(pcps[cpu].lists[t], cold), Popped(pcps[cpu], t, cold);
    PoppedMass(pcps[cpu], t, cold);
    PcpMassUpdate(pcps, cpu, x);
    assert PcpMass(pcps[cpu := x]) == m - multiset{page};
    FromPcp(Free(c), m, h, c.mm.Keys, page);
    PcpToHeld(Free(c), m, h, c.mm.Keys, page);
    MarkPage(c, z, m, page, 0);
    UnmarkPage(c.mm[page := Page(false, 0)], m, page);
  }

  lemma TakeHeldBlock(c: Core, z: Zoning, m: multiset<nat>, h: set<nat>, o: nat, t: nat)
    requires Ready(c, z) && Marked(c.mm, m) && Accounts(Free(c), m, h, c.mm.Keys) && t < MIGRATE_TYPES
    ensures var (r, d) := Rmqueue(c, z, o, t);
            match r
            case None => d == c
            case Some(p) =>
              && Ready(d, z) && Marked(d.mm, m) && d.mm.Keys == c.mm.Keys && Aligned(p, o)
              && Accounts(Free(d), m, h + Span(p, o), d.mm.Keys) && Span(p, o) !! h
              && |Free(d)| == |Free(c)| - Pow2(o)
  {
    hide Inv, Free, Span, WellFormed, Backed, AllListed, Typed, Rmqueue, Accounts;
    RmqueueKeeps(c, z, o, t);
    var (r, d) := Rmqueue(c, z, o, t);
    if r.Some? {
      var p := r.value;
      CardSpan(p, o);
      ToHeld(Free(c), m, h, c.mm.Keys, Span(p, o));
      forall q | q in m ensures q in d.mm && d.mm[q].priv < MIGRATE_TYPES {
        ListedNotFree(Free(c), m, h, c.mm.Keys, q);
      }
    }
  }

  function Reverse(s: seq<nat>): (r: seq<nat>)
    ensures |r| == |s| && forall i :: 0 <= i < |s| ==> r[i] == s[|s| - 1 - i]
  {
    if s == [] then [] else Reverse(s[1..]) + [s[0]]
  }

  /** List t after pages ps were allocated into it. */
  function Refilled(p: Pcp, t: nat, ps: seq<nat>, cold: bool): Pcp
    requires t < |p.lists|
  {
    p.(lists := p.lists[t := if cold then p.lists[t] + Reverse(ps) else ps + p.lists[t]])
  }

  function Inserted(p: Pcp, t: nat, at: nat, page: nat): Pcp
    requires t < |p.lists| && at <= |p.lists[t]|
  {
    p.(lists := p.lists[t := p.lists[t][..at] + [page] + p.lists[t][at..]])
  }

  lemma RefilledNone(p: Pcp, t: nat, cold: bool)
    requires t < |p.lists|
    ensures Refilled(p, t, [], cold) == p
  {
    assert Refilled(p, t, [], cold).lists[t] == p.lists[t];
    assert Refilled(p, t, [], cold).lists == p.lists;
  }

  lemma RefilledStep(p: Pcp, t: nat, ps: seq<nat>, cold: bool, page: nat)
    requires t < |p.lists|
    ensures var at := if cold then |p.lists[t]| else |ps|;
            at <= |Refilled(p, t, ps, cold).lists[t]|
            && Inserted(Refilled(p, t, ps, cold), t, at, page) == Refilled(p, t, ps + [page], cold)
  {
    var q := Refilled(p, t, ps, cold);
    var s, at := p.lists[t], if cold then |p.lists[t]| else |ps|;
    if cold {
      assert q.lists[t][..at] == s && q.lists[t][at..] == Reverse(ps);
      assert Reverse(ps + [page]) == [page] + Reverse(ps);
      assert s + [page] + Reverse(ps) == s + ([page] + Reverse(ps));
    } else {
      assert q.lists[t][..at] == ps && q.lists[t][at..] == s;
    }
    assert Inserted(q, t, at, page).lists == Refilled(p, t, ps + [page], cold).lists;
  }

  lemma InsertMass(ls: seq<seq<nat>>, t: nat, at: nat, page: nat)
    requires t < |ls| && at <= |ls[t]|
    ensures Mass(ls[t := ls[t][..at] + [page] + ls[t][at..]]) == Mass(ls) + multiset{page}
  {
    var s := ls[t];
    assert s == s[..at] + s[at..];
    UpdateMass(ls, t, s[..at] + [page] + s[at..]);
  }

  /** A page allocated for a per-CPU list: it was free, and it is marked with its type. */
  lemma TakePcpPage(c: Core, z: Zoning, m: multiset<nat>, h: set<nat>, t: nat)
    requires Ready(c, z) && Marked(c.mm, m) && Accounts(Free(c), m, h, c.mm.Keys) && t < MIGRATE_PCPTYPES
    requires Rmqueue(c, z, 0, t).0.Some?
    ensures var (r, d) := Rmqueue(c, z, 0, t);
            var p := r.value;
            && p in d.mm && !d.mm[p].buddy && p in Free(c)
            && var e := d.(mm := d.mm[p := Page(false, t)]);
            && Ready(e, z) && Free(e) == Free(c) - {p} && e.mm.Keys == c.mm.Keys
            && |Free(e)| == |Free(c)| - 1
            && Marked(e.mm, m + multiset{p})
            && Accounts(Free(e), m + multiset{p}, h, e.mm.Keys)
  {
    hide Inv, Free, Span, WellFormed, Backed, AllListed, Typed, Rmqueue, Accounts;
    RmqueueKeeps(c, z, 0, t);
    var (r, d) := Rmqueue(c, z, 0, t);
    var p := r.value;
    SinglePage(p);
    ToPcp(Free(c), m, h, c.mm.Keys, p);
    forall q | q in m ensures q in d.mm && d.mm[q].priv < MIGRATE_TYPES {
      ListedNotFree(Free(c), m, h, c.mm.Keys, q);
    }
    MarkPage(d, z, m, p, t);
  }

  lemma ListedNotFree(f: set<nat>, m: multiset<nat>, h: set<nat>, ks: set<nat>, p: nat)
    requires Accounts(f, m, h, ks) && p in m
    ensures p !in f && p in ks
  {}

  /** get_pageblock_migratetype. */
  function PageblockType(c: Core, z: Zoning, p: nat): nat {
    if z.startPfn <= p && BlockIndex(z, p) < |c.types| then c.types[BlockIndex(z, p)] else 0
  }

  /** The type of a page is that of its pageblock, counted from the start of the zone. */
  lemma PageblockTypeAt(c: Core, z: Zoning, p: nat)
    requires Typed(c, z) && InZone(z, p)
    ensures var i := (p - z.startPfn) / Pow2(z.pageblockOrder);
            0 <= i < |c.types| && PageblockType(c, z, p) == c.types[i] < MIGRATE_TYPES
  {
    hide Shr, Pow2;
    BlockIndexRuns(z, p);
    TypedAt(c, z, p);
  }

  /** The per-CPU list for a page of a given type: RESERVE pages are treated as movable. */
  function PcpType(t: nat): nat {
    if t >= MIGRATE_PCPTYPES then MIGRATE_MOVABLE else t
  }

  /** Queueing a page, and returning one batch to the buddy lists when the list is at its limit. */
  ghost predicate QueuedOrDrained(p: Pcp, r: Pcp, page: nat, t: nat, cold: bool)
    requires t < |p.lists| == MIGRATE_PCPTYPES
  {
    var q := Queued(p, page, t, cold);
    if q.count < q.high then r == q
    else r == q.(count := q.count - q.batch, lists := RoundRobin(q.lists, 0, 0, q.batch))
  }

  /** The per-CPU lists after a page is queued at the front, or at the back when cold. */
  function Queued(p: Pcp, page: nat, t: nat, cold: bool): Pcp
    requires t < |p.lists|
  {
    p.(lists := p.lists[t := if cold then p.lists[t] + [page] else [page] + p.lists[t]], count := p.count + 1)
  }

  lemma QueuedMass(p: Pcp, page: nat, t: nat, cold: bool)
    requires t < |p.lists|
    ensures Mass(Queued(p, page, t, cold).lists) == Mass(p.lists) + multiset{page}
    ensures |Mass(Queued(p, page, t, cold).lists)| == |Mass(p.lists)| + 1
  {
    UpdateMass(p.lists, t, Queued(p, page, t, cold).lists[t]);
  }

  lemma SameLists(pcps: seq<Pcp>, cpu: nat, x: Pcp)
    requires cpu < |pcps| && x.lists == pcps[cpu].lists
    ensures PcpMass(pcps[cpu := x]) == PcpMass(pcps)
  {
    PcpMassUpdate(pcps, cpu, x);
  }

  lemma {:induction false} NoPcpMass(pcps: seq<Pcp>)
    requires forall i :: 0 <= i < |pcps| ==> Mass(pcps[i].lists) == multiset{}
    ensures PcpMass(pcps) == multiset{}
  {
    if pcps != [] { NoPcpMass(pcps[1..]); }
  }

  /** Freeing a caller's block leaves the per-CPU pages alone. */
  lemma FreeHeldBlock(c: Core, z: Zoning, m: multiset<nat>, h: set<nat>, p: nat, o: nat, t: nat)
    requires Ready(c, z) && Marked(c.mm, m) && Accounts(Free(c), m, h, c.mm.Keys)
    requires o < MAX_ORDER && t < MIGRATE_TYPES && Aligned(p, o) && Span(p, o) <= h
    ensures Span(p, o) <= c.mm.Keys - Free(c)
    ensures var d := FreeOne(c, p, o, t);
            && Ready(d, z) && Free(d) == Free(c) + Span(p, o) && d.mm.Keys == c.mm.Keys
            && |Free(d)| == |Free(c)| + Pow2(o)
            && Marked(d.mm, m)
  {
    hide Inv, Free, Span, FreeOne, WellFormed, Backed, AllListed, Typed;
    InvShape(c);
    FromHeld(Free(c), m, h, c.mm.Keys, Span(p, o));
    CardSpan(p, o);
    var d := FreeOne(c, p, o, t);
    FreeOneKeeps(c, p, o, t);
    TypedSame(c, d, z);
    forall q | q in m ensures q in d.mm && d.mm[q].priv < MIGRATE_TYPES {
      FreeOneFrame(c, p, o, t, q);
    }
  }

  /** set_page_private on a page that is not free is no buddy matter. */
  lemma MarkPage(c: Core, z: Zoning, m: multiset<nat>, p: nat, t: nat)
    requires Ready(c, z) && Marked(c.mm, m) && p in c.mm && p !in Free(c) && t < MIGRATE_TYPES
    ensures !c.mm[p].buddy
    ensures var d := c.(mm := c.mm[p := Page(false, t)]);
            && Ready(d, z) && Free(d) == Free(c) && d.mm.Keys == c.mm.Keys
            && Marked(d.mm, m + multiset{p})
  {
    hide Inv, Free, Span, WellFormed, Backed, AllListed, Typed;
    if c.mm[p].buddy {
      HeadIsFree(c, p, c.mm[p].priv);
    }
    PrivateKeeps(c, p, t);
    TypedSame(c, c.(mm := c.mm[p := Page(false, t)]), z);
  }

  /** n pages were taken off the tails of the lists, and nothing else changed. */
  ghost predicate Drained(p: Pcp, q: Pcp, n: int) {
    && q == p.(lists := q.lists)
    && |q.lists| == |p.lists|
    && (forall t :: 0 <= t < |p.lists| ==> q.lists[t] <= p.lists[t])
    && |Mass(q.lists)| == |Mass(p.lists)| - n
  }

  lemma DrainedStep(p: Pcp, q: Pcp, n: int, t: nat)
    requires Drained(p, q, n) && t < |q.lists| && q.lists[t] != []
    ensures var s := q.lists[t]; Drained(p, q.(lists := q.lists[t := s[..|s| - 1]]), n + 1)
  {
    hide Mass;
    TailMass(q.lists, t);
  }

  lemma DrainedNone(p: Pcp)
    ensures Drained(p, p, 0)
  {}

  lemma DrainedMore(p: Pcp, q: Pcp, r: Pcp, n: int, k: int)
    requires Drained(p, q, n) && Drained(q, r, k)
    ensures Drained(p, r, n + k)
  {
    hide Mass;
  }

  lemma SomeListed(p: Pcp, q: Pcp, count: nat, left: nat)
    requires Drained(p, q, count - left) && 0 < left <= count <= |Mass(p.lists)| && |q.lists| == MIGRATE_PCPTYPES
    ensures AnyListed(q.lists)
  {
    MassEmpty(q.lists);
  }

  // ---------- the round robin of free_pcppages_bulk ----------

  predicate AnyListed(ls: seq<seq<nat>>)
    requires |ls| == MIGRATE_PCPTYPES
  {
    ls[0] != [] || ls[1] != [] || ls[2] != []
  }

  /** How far on from list t the next list with a page is, going around. */
  function Ahead(ls: seq<seq<nat>>, t: nat): (s: nat)
    requires |ls| == MIGRATE_PCPTYPES && t < MIGRATE_PCPTYPES
    ensures 1 <= s <= MIGRATE_PCPTYPES
  {
    if ls[(t + 1) % MIGRATE_PCPTYPES] != [] then 1 else if ls[(t + 2) % MIGRATE_PCPTYPES] != [] then 2 else 3
  }

  function Shorter(ls: seq<seq<nat>>, t: nat, n: nat): (r: seq<seq<nat>>)
    requires t < |ls| && n <= |ls[t]|
    ensures |r| == |ls| && |r[t]| == |ls[t]| - n
  {
    ls[t := ls[t][..|ls[t]| - n]]
  }

  /** The pages one turn takes from a list: at most its credit, what is asked for, and what there is. */
  function Turn(s: seq<nat>, credit: nat, n: nat): (k: nat)
    ensures k <= |s| && k <= credit && k <= n
    ensures k == |s| || k == credit || k == n
  {
    var m := if credit < n then credit else n;
    if |s| < m then |s| else m
  }

  /** The lists after n pages are taken round robin from list t on. Each list passed over, and each one
      drained before its credit is used up, adds to the credit of the next. */
  function RoundRobin(ls: seq<seq<nat>>, t: nat, credit: nat, n: nat): (r: seq<seq<nat>>)
    requires |ls| == MIGRATE_PCPTYPES && t < MIGRATE_PCPTYPES
    ensures |r| == |ls|
    decreases n
  {
    var u, c := (t + Ahead(ls, t)) % MIGRATE_PCPTYPES, credit + Ahead(ls, t);
    var k := Turn(ls[u], c, n);
    if k == 0 then ls else RoundRobin(Shorter(ls, u, k), u, c - k, n - k)
  }

  /** The pages that takes, in order. */
  function RoundPages(ls: seq<seq<nat>>, t: nat, credit: nat, n: nat): seq<nat>
    requires |ls| == MIGRATE_PCPTYPES && t < MIGRATE_PCPTYPES
    decreases n
  {
    var u, c := (t + Ahead(ls, t)) % MIGRATE_PCPTYPES, credit + Ahead(ls, t);
    var k := Turn(ls[u], c, n);
    if k == 0 then [] else Tail(ls[u], k) + RoundPages(Shorter(ls, u, k), u, c - k, n - k)
  }

  /** The last k entries of a list, from its end. */
  function Tail(s: seq<nat>, k: nat): seq<nat>
    requires k <= |s|
  {
    seq(k, i requires 0 <= i < k => s[|s| - 1 - i])
  }

  lemma TailNone(s: seq<nat>)
    ensures Tail(s, 0) == []
  {}

  predicate Freeable(c: Core, p: nat) {
    Shape(c) && p in c.mm && c.mm[p].priv < MIGRATE_TYPES
  }

  /** Single pages freed one after another, each under the type in its page_private. */
  function FreeAll(c: Core, ps: seq<nat>): Core
    decreases ps
  {
    if ps == [] then c
    else
      var d, p := FreeAll(c, ps[..|ps| - 1]), ps[|ps| - 1];
      if Freeable(d, p) then FreeOne(d, p, 0, d.mm[p].priv) else d
  }

  lemma FreeAllNone(c: Core)
    ensures FreeAll(c, []) == c
  {}

  lemma FreeAllMore(c: Core, s: seq<nat>, k: nat)
    requires k < |s|
    ensures var d, p := FreeAll(c, Tail(s, k)), s[..|s| - k][|s[..|s| - k]| - 1];
            FreeAll(c, Tail(s, k + 1)) == if Freeable(d, p) then FreeOne(d, p, 0, d.mm[p].priv) else d
  {
    hide FreeOne, Freeable;
    assert Tail(s, k + 1)[..k] == Tail(s, k);
  }

  lemma {:induction false} FreeAllConcat(c: Core, a: seq<nat>, b: seq<nat>)
    ensures FreeAll(c, a + b) == FreeAll(FreeAll(c, a), b)
    decreases b
  {
    hide FreeOne, Freeable;
    if b == [] {
      assert a + b == a;
    } else {
      assert (a + b)[..|a + b| - 1] == a + b[..|b| - 1];
      FreeAllConcat(c, a, b[..|b| - 1]);
    }
  }

  lemma RoundNone(ls: seq<seq<nat>>, t: nat, credit: nat)
    requires |ls| == MIGRATE_PCPTYPES && t < MIGRATE_PCPTYPES
    ensures RoundRobin(ls, t, credit, 0) == ls && RoundPages(ls, t, credit, 0) == []
  {}

  lemma RoundTurn(ls: seq<seq<nat>>, t: nat, credit: nat, n: nat)
    requires |ls| == MIGRATE_PCPTYPES && t < MIGRATE_PCPTYPES && AnyListed(ls) && n > 0
    ensures var u, c := (t + Ahead(ls, t)) % MIGRATE_PCPTYPES, credit + Ahead(ls, t);
            var k := Turn(ls[u], c, n);
            && ls[u] != [] && k > 0
            && RoundRobin(ls, t, credit, n) == RoundRobin(Shorter(ls, u, k), u, c - k, n - k)
            && RoundPages(ls, t, credit, n) == Tail(ls[u], k) + RoundPages(Shorter(ls, u, k), u, c - k, n - k)
  {
    hide Tail;
  }

  /** What one of three lists that take turns loses of n pages when list t + 1 is first. */
  function Share(t: nat, u: nat, n: nat): nat
    requires t < MIGRATE_PCPTYPES && u < MIGRATE_PCPTYPES
  {
    (n + 2 - (u + 2 - t) % MIGRATE_PCPTYPES) / MIGRATE_PCPTYPES
  }

  /** As long as no list runs out the lists take strict turns, one page each, list 1 first. */
  lemma {:induction false} RoundRobinEven(ls: seq<seq<nat>>, t: nat, n: nat)
    requires |ls| == MIGRATE_PCPTYPES && t < MIGRATE_PCPTYPES
    requires forall u :: 0 <= u < MIGRATE_PCPTYPES ==> Share(t, u, n) <= |ls[u]|
    ensures forall u: nat :: u < MIGRATE_PCPTYPES ==>
              RoundRobin(ls, t, 0, n)[u] == ls[u][..|ls[u]| - Share(t, u, n)]
    decreases n
  {
    hide Share, Ahead, Turn, Shorter, RoundRobin;
    if n == 0 {
      RoundNone(ls, t, 0);
      forall u: nat | u < MIGRATE_PCPTYPES ensures Share(t, u, 0) == 0 { NoShare(t, u); }
    } else {
      var v := (t + 1) % MIGRATE_PCPTYPES;
      NextShare(t, v, n);
      FirstTurn(ls, t, n);
      var r := Shorter(ls, v, 1);
      ShorterAt(ls, v);
      forall u: nat | u < MIGRATE_PCPTYPES
        ensures Share(t, u, n) == Share(v, u, n - 1) + if u == v then 1 else 0 { NextShare(t, u, n); }
      RoundRobinEven(r, v, n - 1);
    }
  }

  lemma NoShare(t: nat, u: nat)
    requires t < MIGRATE_PCPTYPES && u < MIGRATE_PCPTYPES
    ensures Share(t, u, 0) == 0
  {}

  lemma NextShare(t: nat, u: nat, n: nat)
    requires t < MIGRATE_PCPTYPES && u < MIGRATE_PCPTYPES && n > 0
    ensures var v := (t + 1) % MIGRATE_PCPTYPES;
            Share(t, u, n) == Share(v, u, n - 1) + if u == v then 1 else 0
  {}

  lemma ShorterAt(ls: seq<seq<nat>>, v: nat)
    requires v < |ls| && ls[v] != []
    ensures Shorter(ls, v, 1)[v] == ls[v][..|ls[v]| - 1]
    ensures forall u :: 0 <= u < |ls| && u != v ==> Shorter(ls, v, 1)[u] == ls[u]
  {}

  lemma FirstTurn(ls: seq<seq<nat>>, t: nat, n: nat)
    requires |ls| == MIGRATE_PCPTYPES && t < MIGRATE_PCPTYPES && n > 0 && ls[(t + 1) % MIGRATE_PCPTYPES] != []
    ensures var v := (t + 1) % MIGRATE_PCPTYPES;
            RoundRobin(ls, t, 0, n) == RoundRobin(Shorter(ls, v, 1), v, 0, n - 1)
  {}

  /** A list that is alone gives up all n pages, whatever the turns. */
  lemma {:induction false} RoundRobinAlone(ls: seq<seq<nat>>, t: nat, credit: nat, u: nat, n: nat)
    requires |ls| == MIGRATE_PCPTYPES && t < MIGRATE_PCPTYPES && u < MIGRATE_PCPTYPES && n <= |ls[u]|
    requires forall w :: 0 <= w < MIGRATE_PCPTYPES && w != u ==> ls[w] == []
    ensures RoundRobin(ls, t, credit, n) == Shorter(ls, u, n)
    decreases n
  {
    hide Turn, Shorter, RoundRobin;
    if n == 0 {
      RoundNone(ls, t, credit);
      ShorterNone(ls, u);
    } else {
      RoundTurn(ls, t, credit, n);
      var c := credit + Ahead(ls, t);
      var k := Turn(ls[u], c, n);
      ShorterTwice(ls, u, k, n - k);
      RoundRobinAlone(Shorter(ls, u, k), u, c - k, u, n - k);
    }
  }

  /** One list visited at a time: every visit earns one page of credit, a page taken costs one, and a list is
      left when it is empty or the credit is spent. */
  function Visits(ls: seq<seq<nat>>, t: nat, credit: nat, n: nat): seq<seq<nat>>
    requires |ls| == MIGRATE_PCPTYPES && t < MIGRATE_PCPTYPES
    decreases n, Ahead(ls, t)
  {
    if n == 0 || !AnyListed(ls) then ls
    else
      var u := if t == MIGRATE_PCPTYPES - 1 then 0 else t + 1;
      if ls[u] == [] then Visits(ls, u, credit + 1, n)
      else
        var k := Turn(ls[u], credit + 1, n);
        Visits(Shorter(ls, u, k), u, credit + 1 - k, n - k)
  }

  /** Searching for the next list with a page and visiting them one by one take the same pages. */
  lemma {:induction false} RoundRobinVisits(ls: seq<seq<nat>>, t: nat, credit: nat, n: nat)
    requires |ls| == MIGRATE_PCPTYPES && t < MIGRATE_PCPTYPES
    ensures RoundRobin(ls, t, credit, n) == Visits(ls, t, credit, n)
    decreases n, Ahead(ls, t)
  {
    hide Shorter, Turn, RoundRobin, Visits, Ahead, AnyListed;
    if n == 0 || !AnyListed(ls) {
      RoundStop(ls, t, credit, n);
    } else {
      VisitOne(ls, t, credit, n);
      var u := if t == MIGRATE_PCPTYPES - 1 then 0 else t + 1;
      if ls[u] == [] {
        SkipOne(ls, t);
        SkippedOne(ls, t, credit, n);
        RoundRobinVisits(ls, u, credit + 1, n);
      } else {
        NoSkip(ls, t);
        RoundTurn(ls, t, credit, n);
        var k := Turn(ls[u], credit + 1, n);
        RoundRobinVisits(Shorter(ls, u, k), u, credit + 1 - k, n - k);
      }
    }
  }

  lemma RoundStop(ls: seq<seq<nat>>, t: nat, credit: nat, n: nat)
    requires |ls| == MIGRATE_PCPTYPES && t < MIGRATE_PCPTYPES && (n == 0 || !AnyListed(ls))
    ensures RoundRobin(ls, t, credit, n) == ls == Visits(ls, t, credit, n)
  {}

  lemma VisitOne(ls: seq<seq<nat>>, t: nat, credit: nat, n: nat)
    requires |ls| == MIGRATE_PCPTYPES && t < MIGRATE_PCPTYPES && n > 0 && AnyListed(ls)
    ensures var u := if t == MIGRATE_PCPTYPES - 1 then 0 else t + 1;
            Visits(ls, t, credit, n) ==
            if ls[u] == [] then Visits(ls, u, credit + 1, n)
            else
              var k := Turn(ls[u], credit + 1, n);
              Visits(Shorter(ls, u, k), u, credit + 1 - k, n - k)
  {
    hide Shorter, Turn, Ahead, AnyListed;
  }

  lemma NoSkip(ls: seq<seq<nat>>, t: nat)
    requires |ls| == MIGRATE_PCPTYPES && t < MIGRATE_PCPTYPES
    ensures var u := if t == MIGRATE_PCPTYPES - 1 then 0 else t + 1;
            u == (t + 1) % MIGRATE_PCPTYPES && (ls[u] != [] ==> Ahead(ls, t) == 1)
  {}

  lemma SkipOne(ls: seq<seq<nat>>, t: nat)
    requires |ls| == MIGRATE_PCPTYPES && t < MIGRATE_PCPTYPES && AnyListed(ls)
    ensures var u := if t == MIGRATE_PCPTYPES - 1 then 0 else t + 1;
            ls[u] == [] ==> Ahead(ls, u) == Ahead(ls, t) - 1 && (u + Ahead(ls, u)) % 3 == (t + Ahead(ls, t)) % 3
  {}

  lemma SkippedOne(ls: seq<seq<nat>>, t: nat, credit: nat, n: nat)
    requires |ls| == MIGRATE_PCPTYPES && t < MIGRATE_PCPTYPES
    requires var u := if t == MIGRATE_PCPTYPES - 1 then 0 else t + 1;
             Ahead(ls, u) == Ahead(ls, t) - 1 && (u + Ahead(ls, u)) % 3 == (t + Ahead(ls, t)) % 3
    ensures var u := if t == MIGRATE_PCPTYPES - 1 then 0 else t + 1;
            RoundRobin(ls, t, credit, n) == RoundRobin(ls, u, credit + 1, n)
  {
    hide Shorter, Turn, Ahead;
  }

  lemma ShorterTwice(ls: seq<seq<nat>>, u: nat, k: nat, j: nat)
    requires u < |ls| && k + j <= |ls[u]|
    ensures Shorter(Shorter(ls, u, k), u, j) == Shorter(ls, u, k + j)
    ensures forall w :: 0 <= w < |ls| && w != u ==> Shorter(ls, u, k)[w] == ls[w]
  {
    var s := ls[u];
    assert s[..|s| - k][..|s| - k - j] == s[..|s| - k - j];
  }

  /** A page freed hot is the next one a hot request gets, a page freed cold the next a cold one does; either
      way the list is as before. Draining takes the cold end. RESERVE pages are kept with the movable ones. */
  lemma HotCold(p: Pcp, page: nat, t: nat, cold: bool)
    requires t < |p.lists|
    ensures var q := Queued(p, page, t, cold);
            q.lists[t] != [] && End(q.lists[t], cold) == page && Popped(q, t, cold) == p
    ensures Queued(p, page, t, false).lists[t] == [page] + p.lists[t]
    ensures p.lists[t] != [] ==> Tail(p.lists[t], 1) == [End(p.lists[t], true)]
    ensures PcpType(MIGRATE_RESERVE) == MIGRATE_MOVABLE && forall u: nat :: u < MIGRATE_PCPTYPES ==> PcpType(u) == u
  {
    var q := Queued(p, page, t, cold);
    var s := q.lists[t];
    assert (if cold then s[..|s| - 1] else s[1..]) == p.lists[t];
    assert Popped(q, t, cold).lists == p.lists;
  }

  /** A pageset starts empty with a mark of six batches; a mark set later makes the batch a quarter of it, at
      least 1 and at most 96. */
  lemma HighmarkBatch(p: Pcp, high: nat)
    ensures forall b: nat :: SetupPageset(b).count == 0 && SetupPageset(b).high == 6 * b && SetupPageset(b).batch >= 1
                             && (b >= 1 ==> SetupPageset(b).batch == b)
    ensures var q := Highmark(p, high);
            && q.high == high && 1 <= q.batch <= 96
            && (4 * q.batch <= high || q.batch == 1) && (high < 4 * q.batch + 4 || q.batch == 96)
  {}

  lemma AheadAt(ls: seq<seq<nat>>, t: nat, skips: nat)
    requires |ls| == MIGRATE_PCPTYPES && t < MIGRATE_PCPTYPES && AnyListed(ls) && 1 <= skips <= Ahead(ls, t)
    ensures ls[(t + skips) % MIGRATE_PCPTYPES] != [] <==> skips == Ahead(ls, t)
  {}

  lemma ShorterNone(ls: seq<seq<nat>>, t: nat)
    requires t < |ls|
    ensures Shorter(ls, t, 0) == ls
  {
    assert ls[t][..|ls[t]|] == ls[t];
  }

  lemma ShorterMore(ls: seq<seq<nat>>, t: nat, n: nat)
    requires t < |ls| && n < |ls[t]|
    ensures var r := Shorter(ls, t, n);
            && r[t] == ls[t][..|ls[t]| - n] && r[t] != []
            && Shorter(ls, t, n + 1) == r[t := r[t][..|r[t]| - 1]]
  {
    var s := ls[t];
    assert s[..|s| - n][..|s| - n - 1] == s[..|s| - n - 1];
  }

  /** Each page of the zone is in exactly one place: a free block, one per-CPU list, or a caller. */
  ghost predicate Accounts(free: set<nat>, listed: multiset<nat>, held: set<nat>, pages: set<nat>) {
    forall q: nat ::
      (if q in free then 1 else 0) + listed[q] + (if q in held then 1 else 0) == if q in pages then 1 else 0
  }

  /** page_private of a per-CPU page is a migratetype. */
  ghost predicate Marked(mm: map<nat, Page>, listed: multiset<nat>) {
    forall q :: q in listed ==> q in mm && mm[q].priv < MIGRATE_TYPES
  }

  lemma FromPcp(f: set<nat>, m: multiset<nat>, h: set<nat>, ks: set<nat>, p: nat)
    requires Accounts(f, m, h, ks) && p in m
    ensures m[p] == 1 && p in ks && p !in f && p !in h && |f + {p}| == |f| + 1
    ensures Accounts(f + {p}, m - multiset{p}, h, ks)
  {}

  lemma FromHeld(f: set<nat>, m: multiset<nat>, h: set<nat>, ks: set<nat>, s: set<nat>)
    requires Accounts(f, m, h, ks) && s <= h
    ensures s <= ks && s !! f && |f + s| == |f| + |s|
    ensures Accounts(f + s, m, h - s, ks)
  {}

  lemma ToHeld(f: set<nat>, m: multiset<nat>, h: set<nat>, ks: set<nat>, s: set<nat>)
    requires Accounts(f, m, h, ks) && s <= f
    ensures Accounts(f - s, m, h + s, ks) && s !! h && |f - s| == |f| - |s|
  {
    assert f == (f - s) + s;
  }

  lemma ToPcp(f: set<nat>, m: multiset<nat>, h: set<nat>, ks: set<nat>, p: nat)
    requires Accounts(f, m, h, ks) && p in f
    ensures Accounts(f - {p}, m + multiset{p}, h, ks) && p !in m && |f - {p}| == |f| - 1
  {}

  lemma HeldToPcp(f: set<nat>, m: multiset<nat>, h: set<nat>, ks: set<nat>, p: nat)
    requires Accounts(f, m, h, ks) && p in h
    ensures Accounts(f, m + multiset{p}, h - {p}, ks) && p in ks && p !in f && p !in m
  {}

  lemma PcpToHeld(f: set<nat>, m: multiset<nat>, h: set<nat>, ks: set<nat>, p: nat)
    requires Accounts(f, m, h, ks) && p in m
    ensures Accounts(f, m - multiset{p}, h + {p}, ks) && m[p] == 1
  {}

  /** Freeing a per-CPU page under its recorded type leaves the other per-CPU pages alone. */
  lemma FreePcpPage(c: Core, z: Zoning, m: multiset<nat>, h: set<nat>, p: nat)
    requires Ready(c, z) && Marked(c.mm, m) && Accounts(Free(c), m, h, c.mm.Keys) && p in m
    ensures p in c.mm && c.mm[p].priv < MIGRATE_TYPES && p !in Free(c) && Aligned(p, 0)
    ensures Span(p, 0) <= c.mm.Keys - Free(c)
    ensures var d := FreeOne(c, p, 0, c.mm[p].priv);
            && Ready(d, z) && Free(d) == Free(c) + {p} && d.mm.Keys == c.mm.Keys
            && Marked(d.mm, m - multiset{p})
  {
    hide Inv, Free, Span, FreeOne, WellFormed, Backed, AllListed, Typed;
    InvShape(c);
    FromPcp(Free(c), m, h, c.mm.Keys, p);
    SinglePage(p);
    var t := c.mm[p].priv;
    var d := FreeOne(c, p, 0, t);
    FreeOneKeeps(c, p, 0, t);
    TypedSame(c, d, z);
    forall q | q in m - multiset{p} ensures q in d.mm && d.mm[q].priv < MIGRATE_TYPES {
      assert q in m && q != p;
      FreeOneFrame(c, p, 0, t, q);
    }
  }

  const PAGE_SHIFT: nat := 12

  const NO_LISTS: seq<seq<nat>> := [[], [], [], [], []]

  /** setup_pageset. */
  function SetupPageset(batch: nat): (p: Pcp) {
    Pcp(0, 6 * batch, if batch > 1 then batch else 1, [[], [], []])
  }

  /** The effect of setup_pagelist_highmark. */
  function Highmark(p: Pcp, high: nat): Pcp {
    p.(high := high, batch := if high / 4 > PAGE_SHIFT * 8 then PAGE_SHIFT * 8 else if high / 4 >= 1 then high / 4 else 1)
  }

  lemma ThreeEmpty()
    ensures Mass([[], [], []]) == multiset{} && Mass(NO_LISTS) == multiset{}
  {
    MassEmpty([[], [], []]);
    MassEmpty(NO_LISTS);
  }

  lemma EmptyPcps(pcps: seq<Pcp>)
    requires forall i :: 0 <= i < |pcps| ==> pcps[i].lists == [[], [], []]
    ensures PcpMass(pcps) == multiset{}
    ensures forall i :: 0 <= i < |pcps| ==> Mass(pcps[i].lists) == multiset{}
  {
    ThreeEmpty();
    NoPcpMass(pcps);
  }

  lemma NothingFree(c: Core, ls: seq<seq<nat>>)
    requires |c.area| == MAX_ORDER && ls == NO_LISTS
    requires forall i :: 0 <= i < MAX_ORDER ==> c.area[i] == Area(ls, 0)
    requires forall p :: p in c.mm ==> !c.mm[p].buddy
    ensures Inv(c) && Free(c) == {}
  {
    ThreeEmpty();
    assert BlocksOf(c.mm) == map[];
    forall o | 0 <= o < MAX_ORDER ensures Listed(c, o) && c.area[o].nrFree == |Mass(c.area[o].lists)| {}
    NoneCounted(c.area, |c.area|);
  }

  lemma FreshZone(c: Core, z: Zoning, pcps: seq<Pcp>, held: set<nat>)
    requires |c.area| == MAX_ORDER && forall i :: 0 <= i < MAX_ORDER ==> c.area[i] == Area(NO_LISTS, 0)
    requires forall p :: p in c.mm ==> !c.mm[p].buddy
    requires Typed(c.(area := []), z) && z.pageblockOrder >= 1
    requires PcpMass(pcps) == multiset{} && held == c.mm.Keys
    ensures Ready(c, z) && Free(c) == {}
    ensures Accounts(Free(c), PcpMass(pcps), held, c.mm.Keys) && Marked(c.mm, PcpMass(pcps))
  {
    hide Inv, Free, Typed, PcpMass;
    NothingFree(c, NO_LISTS);
    TypedSame(c.(area := []), c, z);
  }

  lemma {:induction false} NoneCounted(a: seq<Area>, n: nat)
    requires n <= |a| && forall i :: 0 <= i < |a| ==> a[i].nrFree == 0
    ensures FreeCount(a, n) == 0
  {
    if n > 0 {
      NoneCounted(a, n - 1);
      ShlZero(n - 1);
    }
  }

  /** The allocation and freeing code relies on batch never exceeding high once a page is queued. */
  ghost predicate PcpValid(p: Pcp) {
    p.count == |Mass(p.lists)| && 1 <= p.batch && (p.batch <= p.high || p.batch == 1)
  }

  lemma ReadyInv(c: Core, z: Zoning)
    requires Ready(c, z)
    ensures Inv(c) && Shape(c) && Typed(c, z)
  {}

  lemma SinglePage(p: nat)
    ensures Span(p, 0) == {p} && Aligned(p, 0)
  {
    assert forall q :: q in Span(p, 0) <==> Inside(q, p, 0);
  }

  lemma TailMass(ls: seq<seq<nat>>, t: nat)
    requires t < |ls| && ls[t] != []
    ensures var s := ls[t];
            && s[|s| - 1] in Mass(ls)
            && Mass(ls[t := s[..|s| - 1]]) == Mass(ls) - multiset{s[|s| - 1]}
            && |Mass(ls[t := s[..|s| - 1]])| == |Mass(ls)| - 1
  {
    var s := ls[t];
    assert s == s[..|s| - 1] + [s[|s| - 1]];
    UpdateMass(ls, t, s[..|s| - 1]);
    assert s[|s| - 1] in multiset(s);
  }

  lemma TypedAt(c: Core, z: Zoning, p: nat)
    requires Typed(c, z) && InZone(z, p)
    ensures BlockIndex(z, p) < |c.types|
  {}
}
