/** Whole runs of allocations, frees and drains against one zone. */
module Runs {
  import opened Bits
  import opened Buddy
  import opened FreeLists
  import opened FreeArea
  import opened PageAlloc
  import opened Zone

  /** What callers may ask for, in any order. */
  datatype Request =
    | Alloc(cpu: nat, order: nat, t: nat, cold: bool)
    | FreePages(cpu: nat, page: nat, order: nat, cold: bool)
    | DrainCpu(cpu: nat)
    | DrainRemote(cpu: nat)
    | DrainAll

  /** Callers allocate for the mobility types, and free aligned runs of pages they hold. */
  predicate Permitted(r: Request, held: set<nat>, cpus: nat) {
    match r
    case Alloc(cpu, _, t, _) => cpu < cpus && t < MIGRATE_PCPTYPES
    case FreePages(cpu, page, order, _) => cpu < cpus && order < MAX_ORDER && Aligned(page, order) && Span(page, order) <= held
    case DrainCpu(cpu) => cpu < cpus
    case DrainRemote(cpu) => cpu < cpus
    case DrainAll => true
  }

  /** The allocator's state fixes its blocks: with the same free pages come the same blocks. */
  lemma SameFreeSameBlocks(c: Core, d: Core)
    requires Inv(c) && Inv(d) && Free(c) == Free(d)
    ensures BlocksOf(c.mm) == BlocksOf(d.mm)
  {
    hide Inv, WellFormed, AllListed, Shape;
    InvShape(c);
    InvShape(d);
    forall q: int ensures Covers(BlocksOf(c.mm), q) <==> Covers(BlocksOf(d.mm), q) {
      CoverFree(c, q);
      CoverFree(d, q);
    }
    Canonical(BlocksOf(c.mm), BlocksOf(d.mm));
  }

  lemma CoverFree(c: Core, q: int)
    requires Backed(c.mm)
    ensures Covers(BlocksOf(c.mm), q) <==> q >= 0 && q in Free(c)
  {
    if q >= 0 { InFree(c, q); }
  }

  /** With nothing on the per-CPU lists, the free pages are those callers do not hold. */
  lemma FreeIsRest(f: set<nat>, h: set<nat>, ks: set<nat>)
    requires Accounts(f, multiset{}, h, ks)
    ensures f == ks - h
  {
    forall q | q in ks - h ensures q in f {}
    forall q | q in f ensures q in ks - h {}
  }

  method Serve(zone: Zone, r: Request)
    requires zone.Valid() && Permitted(r, zone.held, |zone.pcp|)
    modifies zone
    ensures zone.Valid() && zone.memMap.Keys == old(zone.memMap.Keys) && |zone.pcp| == old(|zone.pcp|)
    ensures r.Alloc? ==> old(zone.held) <= zone.held
    ensures r.FreePages? ==> zone.held == old(zone.held) - Span(r.page, r.order)
    ensures !r.Alloc? && !r.FreePages? ==> zone.held == old(zone.held)
  {
    hide zone.Valid, Inv, Free;
    match r
    case Alloc(cpu, order, t, cold) =>
      var p := zone.BufferedRmqueue(cpu, order, t, cold);
    case FreePages(cpu, page, order, cold) =>
      if order == 0 {
        SinglePage(page);
        zone.FreeHotColdPage(cpu, page, cold);
      } else {
        zone.FreePagesOk(page, order);
      }
    case DrainCpu(cpu) => zone.DrainPages(cpu);
    case DrainRemote(cpu) => zone.DrainZonePages(cpu);
    case DrainAll => zone.DrainAllPages();
  }

  /** Any run keeps the zone's invariant; and if it ends with every page back and the per-CPU lists
      drained, as it began, the free blocks are exactly the ones it began with. */
  method Run(zone: Zone, script: seq<Request>)
    requires zone.Valid()
    modifies zone
    ensures zone.Valid() && zone.memMap.Keys == old(zone.memMap.Keys)
    ensures zone.nrFreePages == |Free(zone.State())|
    ensures old(PcpMass(zone.pcp)) == multiset{} == PcpMass(zone.pcp) && zone.held == old(zone.held) ==>
              BlocksOf(zone.memMap) == BlocksOf(old(zone.memMap))
  {
    hide Inv, Free, Mass, PcpMass, Typed, Marked, Accounts;
    ghost var c := zone.State();
    if PcpMass(zone.pcp) == multiset{} { FreeIsRest(Free(c), zone.held, zone.memMap.Keys); }
    for i := 0 to |script|
      invariant zone.Valid() && zone.memMap.Keys == old(zone.memMap.Keys)
    {
      if Permitted(script[i], zone.held, |zone.pcp|) {
        Serve(zone, script[i]);
      }
    }
    if old(PcpMass(zone.pcp)) == multiset{} == PcpMass(zone.pcp) && zone.held == old(zone.held) {
      FreeIsRest(Free(zone.State()), zone.held, zone.memMap.Keys);
      SameFreeSameBlocks(c, zone.State());
    }
  }
}
