/** early_node_map: the table of page frame ranges present on each node. */
module NodeMap {

  datatype Region = Region(nid: nat, start: nat, end: nat)

  const MAX_ACTIVE_REGIONS: nat := 256

  /** MAX_NUMNODES as a node number stands for every node. */
  const ANY_NODE: nat := 1024

  predicate Selects(nid: nat, r: Region) { nid == ANY_NODE || r.nid == nid }

  ghost predicate In(r: Region, nid: nat, q: int) { Selects(nid, r) && r.start <= q < r.end }

  ghost predicate Covered(t: seq<Region>, nid: nat, q: int) {
    exists i :: 0 <= i < |t| && In(t[i], nid, q)
  }

  ghost predicate Disjoint(a: Region, b: Region) { a.end <= b.start || b.end <= a.start }

  predicate Blank(r: Region) { r.start == 0 && r.end == 0 }

  /** Regions are non-empty or cleared, and those of one node are disjoint. */
  ghost predicate TableOk(t: seq<Region>) {
    && (forall i :: 0 <= i < |t| ==> t[i].nid != ANY_NODE && (t[i].start < t[i].end || Blank(t[i])))
    && (forall i, j :: 0 <= i < j < |t| && t[i].nid == t[j].nid ==> Disjoint(t[i], t[j]))
  }

  /** The new range overlaps no region of its node. */
  ghost predicate Fresh(t: seq<Region>, r: Region) {
    && r.start < r.end && r.nid != ANY_NODE
    && forall i :: 0 <= i < |t| && t[i].nid == r.nid ==> Disjoint(t[i], r)
  }

  lemma ReplaceCovers(t: seq<Region>, i: nat, r: Region, nid: nat, q: int)
    requires i < |t|
    ensures Covered(t[i := r], nid, q) <==> In(r, nid, q) || exists k :: 0 <= k < |t| && k != i && In(t[k], nid, q)
  {
    var u := t[i := r];
    if Covered(u, nid, q) {
      var k :| 0 <= k < |u| && In(u[k], nid, q);
      if k != i { assert In(t[k], nid, q); }
    }
    if In(r, nid, q) { assert In(u[i], nid, q); }
    if k :| 0 <= k < |t| && k != i && In(t[k], nid, q) { assert In(u[k], nid, q); }
  }

  lemma SplitCovers(t: seq<Region>, i: nat, nid: nat, q: int)
    requires i < |t|
    ensures Covered(t, nid, q) <==> In(t[i], nid, q) || exists k :: 0 <= k < |t| && k != i && In(t[k], nid, q)
  {
    ReplaceCovers(t, i, t[i], nid, q);
    assert t[i := t[i]] == t;
  }

  /** Region i becomes r: coverage changes by what r adds and region i gave up. */
  lemma ReplaceTable(t: seq<Region>, i: nat, r: Region)
    requires i < |t| && TableOk(t) && r.nid == t[i].nid && (r.start < r.end || Blank(r))
    requires forall k :: 0 <= k < |t| && k != i && t[k].nid == r.nid ==> Disjoint(t[k], r)
    ensures TableOk(t[i := r])
    ensures forall nid: nat, q: int {:trigger Covered(t[i := r], nid, q)} ::
              Covered(t[i := r], nid, q) <==> In(r, nid, q) || (Covered(t, nid, q) && !(In(t[i], nid, q) && Alone(t, i, nid, q)))
  {
    forall nid: nat, q: int ensures Covered(t[i := r], nid, q) <==>
      In(r, nid, q) || (Covered(t, nid, q) && !(In(t[i], nid, q) && Alone(t, i, nid, q)))
    {
      ReplaceCovers(t, i, r, nid, q);
      SplitCovers(t, i, nid, q);
    }
  }

  /** No other region covers q. */
  ghost predicate Alone(t: seq<Region>, i: nat, nid: nat, q: int) {
    forall k :: 0 <= k < |t| && k != i ==> !In(t[k], nid, q)
  }

  lemma AppendTable(t: seq<Region>, r: Region)
    requires TableOk(t) && Fresh(t, r)
    ensures TableOk(t + [r])
    ensures forall nid: nat, q: int {:trigger Covered(t + [r], nid, q)} :: Covered(t + [r], nid, q) <==> Covered(t, nid, q) || In(r, nid, q)
  {
    var u := t + [r];
    forall nid: nat, q: int ensures Covered(u, nid, q) <==> Covered(t, nid, q) || In(r, nid, q) {
      if Covered(t, nid, q) { var k :| 0 <= k < |t| && In(t[k], nid, q); assert In(u[k], nid, q); }
      if In(r, nid, q) { assert In(u[|t|], nid, q); }
      if Covered(u, nid, q) { var k :| 0 <= k < |u| && In(u[k], nid, q); if k < |t| { assert In(t[k], nid, q); } }
    }
  }

  /** What adding a range should do to the pages covered. */
  ghost predicate Added(t: seq<Region>, u: seq<Region>, r: Region) {
    forall q: int {:trigger Covered(u, r.nid, q)} :: Covered(u, r.nid, q) <==> Covered(t, r.nid, q) || r.start <= q < r.end
  }

  /** Coverage of other single nodes stays as it is. */
  ghost predicate OthersSame(t: seq<Region>, u: seq<Region>, nid: nat) {
    forall n: nat, q: int {:trigger Covered(u, n, q)} :: n != nid && n != ANY_NODE ==> (Covered(u, n, q) <==> Covered(t, n, q))
  }

  /** An entry as it was, or with the adjacent range r added at one end. */
  ghost predicate Grown(a: Region, b: Region, r: Region) {
    || b == a
    || (a.nid == r.nid && a.end == r.start && b == Region(r.nid, a.start, r.end))
    || (a.nid == r.nid && r.end == a.start && b == Region(r.nid, r.start, a.end))
  }

  /** Extending region i by an adjacent range covers the union. */
  lemma ExtendTable(t: seq<Region>, i: nat, r: Region, e: Region)
    requires i < |t| && TableOk(t) && Fresh(t, r) && t[i].nid == r.nid == e.nid
    requires e.start < e.end
    requires e == Region(r.nid, t[i].start, r.end) || e == Region(r.nid, r.start, t[i].end)
    requires t[i].end == r.start || r.end == t[i].start
    ensures TableOk(t[i := e]) && Added(t, t[i := e], r) && OthersSame(t, t[i := e], r.nid)
  {
    var u := t[i := e];
    forall k | 0 <= k < |t| && k != i && t[k].nid == r.nid ensures Disjoint(t[k], e) {
      assert Disjoint(t[k], r);
      assert Disjoint(t[k], t[i]) || Disjoint(t[i], t[k]);
    }
    ReplaceTable(t, i, e);
    forall n: nat, q: int ensures n == r.nid ==> (Covered(u, n, q) <==> Covered(t, n, q) || r.start <= q < r.end)
    ensures n != r.nid && n != ANY_NODE ==> (Covered(u, n, q) <==> Covered(t, n, q))
    {
      ReplaceCovers(t, i, e, n, q);
      SplitCovers(t, i, n, q);
    }
  }

  ghost predicate Adjacent(a: Region, b: Region) { a.end == b.start || b.end == a.start }

  /** A region of the same node ends where r starts, or starts where it ends. */
  ghost predicate Touches(t: seq<Region>, r: Region) {
    exists k :: 0 <= k < |t| && t[k].nid == r.nid && Adjacent(t[k], r)
  }

  ghost predicate Around(a: Region, nid: nat, start: nat, end: nat) {
    a.nid == nid && a.start < start && end < a.end
  }

  ghost predicate StartsAt(t: seq<Region>, nid: nat, q: nat) {
    exists k :: 0 <= k < |t| && t[k].nid == nid && t[k].start == q
  }

  /** Removing the range splits a region, and no region of the node starts where that one ends: the part
      beyond the range needs an entry of its own. */
  ghost predicate NeedsEntry(t: seq<Region>, nid: nat, start: nat, end: nat) {
    start < end && exists k :: 0 <= k < |t| && Around(t[k], nid, start, end) && !StartsAt(t, nid, t[k].end)
  }

  /** Such a table exists, full: cutting 2..5 out of node 0's only region, when every entry is taken. */
  lemma FullTable() returns (t: seq<Region>)
    ensures TableOk(t) && |t| == MAX_ACTIVE_REGIONS && NeedsEntry(t, 0, 2, 5)
  {
    t := seq(MAX_ACTIVE_REGIONS, i requires 0 <= i < MAX_ACTIVE_REGIONS => Region(i, 0, 10));
    assert Around(t[0], 0, 2, 5) && !StartsAt(t, 0, t[0].end);
  }

  class Table {
    const regions: array<Region>
    var nr: nat

    constructor ()
      ensures Valid() && T() == []
    {
      regions := new Region[MAX_ACTIVE_REGIONS](_ => Region(0, 0, 0));
      nr := 0;
    }

    /** The entries in use. */
    ghost function T(): seq<Region>
      reads this, regions
      requires nr <= regions.Length
    {
      regions[..nr]
    }

    ghost predicate Valid()
      reads this, regions
    {
      regions.Length == MAX_ACTIVE_REGIONS && nr <= regions.Length && TableOk(T())
    }

    /** add_active_range: for a range that overlaps nothing on its node, the pages covered become the
        union; but a full table with no region next to the range stays as it is. */
    method AddActiveRange(nid: nat, start: nat, end: nat)
      requires Valid() && Fresh(T(), Region(nid, start, end))
      modifies this, regions
      ensures Valid() && |old(T())| <= nr <= |old(T())| + 1
      ensures if old(nr) < regions.Length || Touches(old(T()), Region(nid, start, end))
              then Added(old(T()), T(), Region(nid, start, end)) else T() == old(T())
      ensures OthersSame(old(T()), T(), nid)
      ensures forall k :: 0 <= k < |old(T())| ==> Grown(old(T())[k], T()[k], Region(nid, start, end))
      ensures nr > |old(T())| ==> T()[|old(T())|] == Region(nid, start, end)
    {
      ghost var t, r := T(), Region(nid, start, end);
      var i := 0;
      while i < nr
        invariant i <= nr && unchanged(this) && unchanged(regions)
        invariant forall k :: 0 <= k < i && t[k].nid == nid ==> !Adjacent(t[k], r)
      {
        if regions[i].nid != nid {
          i := i + 1;
          continue;
        }
        assert Disjoint(t[i], r);
        if start >= regions[i].start && end <= regions[i].end {
          return;
        }
        if start <= regions[i].end && end > regions[i].end {
          ExtendTable(t, i, r, Region(nid, t[i].start, end));
          regions[i] := regions[i].(end := end);
          assert T() == t[i := Region(nid, t[i].start, end)];
          return;
        }
        if start < regions[i].end && end >= regions[i].start {
          ExtendTable(t, i, r, Region(nid, start, t[i].end));
          regions[i] := regions[i].(start := start);
          assert T() == t[i := Region(nid, start, t[i].end)];
          return;
        }
        i := i + 1;
      }
      if i >= MAX_ACTIVE_REGIONS {
        return;
      }
      AppendTable(t, r);
      regions[i] := Region(nid, start, end);
      nr := i + 1;
      assert T() == t + [r];
    }

    /** The first loop of remove_active_range: every region of the node gives up start..end. When that
        needs an entry and the table is full, the part of the split region beyond the range is lost. */
    method Shrink(nid: nat, start: nat, end: nat) returns (removed: bool)
      requires Valid() && nid != ANY_NODE && start <= end
      modifies this, regions
      ensures Valid() && OthersSame(old(T()), T(), nid)
      ensures Removed(old(T()), T(), nid, start, end) <==> old(nr) < regions.Length || !NeedsEntry(old(T()), nid, start, end)
    {
      hide Covered, In, Grown, Added, NeedsEntry, Touches, ClearFrom, Passed, Keeps, OthersSame, TableOk;
      ghost var t, room := T(), nr < regions.Length;
      removed := false;
      ghost var hit, lost := false, false;
      Unchanged(t, nid, start, end);
      var i := 0;
      while i < nr
        invariant i <= nr && Valid() && OthersSame(t, T(), nid)
        invariant !lost ==> Keeps(t, T(), nid, start, end)
        invariant !lost ==> forall k :: 0 <= k < i && T()[k].nid == nid ==> Misses(T()[k], start, end)
        invariant !hit ==> nr == |t| && Passed(t, T(), i, nid, start, end)
        invariant hit ==> nr <= |t| + 1 && ClearFrom(T(), i, nid, start)
        invariant hit && !lost ==> room || !NeedsEntry(t, nid, start, end)
        invariant lost ==> hit && !room && NeedsEntry(t, nid, start, end) && Covered(t, nid, end) && !Covered(T(), nid, end)
        decreases |t| + 1 - i, nr
      {
        ghost var u, r := T(), regions[i];
        assert hit ==> ClearFrom(u, i + 1, nid, start) && !(r.nid == nid && Straddles(r, start)) by {
          if hit { ClearNext(u, i, nid, start); }
        }
        if regions[i].nid != nid {
          if !hit { PassedOver(t, u, i, nid, start, end); }
        } else if regions[i].start >= start && regions[i].end <= end {
          CutTable(u, i, Region(nid, 0, 0), start, end);
          regions[i] := regions[i].(start := 0, end := 0);
          removed := true;
          assert T() == u[i := Region(nid, 0, 0)];
          KeepsThrough(t, u, T(), nid, start, end);
          if !hit { PassedCut(t, u, i, Region(nid, 0, 0), nid, start, end); }
          if hit { ClearCut(u, i, Region(nid, 0, 0), nid, start); }
        } else if regions[i].start < start && regions[i].end > start {
          var tempEnd := regions[i].end;
          CutTable(u, i, Region(nid, r.start, start), start, if tempEnd > end then tempEnd else end);
          regions[i] := regions[i].(end := start);
          assert T() == u[i := Region(nid, r.start, start)];
          if tempEnd > end {
            ghost var v := T();
            TailFresh(u, i, v, start, end);
            TailTouches(t, u, v, i, nid, start, end);
            hit := true;
            AddActiveRange(nid, end, tempEnd);
            KeepsThrough(u, v, T(), nid, start, end);
            if room || Touches(v, Region(nid, end, tempEnd)) {
              SplitKeeps(u, i, v, T(), nid, start, end);
            } else {
              TailLost(t, u, v, i, nid, start, end);
              lost := true;
            }
          } else {
            PassedCut(t, u, i, Region(nid, r.start, start), nid, start, end);
          }
          KeepsThrough(t, u, T(), nid, start, end);
        } else if regions[i].start >= start && regions[i].end > end && regions[i].start < end {
          CutTable(u, i, Region(nid, end, r.end), start, end);
          regions[i] := regions[i].(start := end);
          assert T() == u[i := Region(nid, end, r.end)];
          KeepsThrough(t, u, T(), nid, start, end);
          if !hit { PassedCut(t, u, i, Region(nid, end, r.end), nid, start, end); }
          if hit { ClearCut(u, i, Region(nid, end, r.end), nid, start); }
        } else if !hit {
          PassedOver(t, u, i, nid, start, end);
        }
        i := i + 1;
      }
      if lost {
        LostOne(t, T(), nid, start, end);
      } else {
        AllMiss(t, T(), nid, start, end);
        if !hit { NoneAround(t, T(), nid, start, end); }
      }
    }

    /** The second loop of remove_active_range: cleared entries of the node, but for entry 0, go. */
    method Compact(nid: nat)
      requires Valid() && nid != ANY_NODE
      modifies this, regions
      ensures Valid() && SameCover(old(T()), T()) && nr <= old(nr)
      ensures forall k :: 1 <= k < nr && T()[k].nid == nid ==> !Blank(T()[k])
      ensures old(nr) > 0 ==> nr > 0 && T()[0] == old(T())[0]
      ensures (exists k :: 0 <= k < nr && T()[k].nid == nid && Blank(T()[k])) <==>
              old(nr) > 0 && old(T())[0].nid == nid && Blank(old(T())[0])
    {
      ghost var t := T();
      var i := nr - 1;
      while i > 0
        invariant i < nr <= old(nr) || (nr == 0 && i == -1)
        invariant old(nr) > 0 ==> nr > 0 && T()[0] == t[0]
        invariant Valid() && SameCover(t, T())
        invariant forall k :: 1 <= k < nr && i < k && T()[k].nid == nid ==> !Blank(T()[k])
        decreases i
      {
        if regions[i].nid == nid && regions[i].end == 0 {
          DropEntry(i);
        }
        i := i - 1;
      }
    }

    /** The entries after i move down by one, and the last is cleared. */
    method DropEntry(i: nat)
      requires Valid() && i < nr && Blank(T()[i])
      modifies this, regions
      ensures Valid() && T() == old(T())[..i] + old(T())[i + 1..] && SameCover(old(T()), T())
    {
      hide TableOk, SameCover, Covered;
      ghost var t := T();
      var j := i;
      while j < nr - 1
        invariant i <= j <= nr - 1 && unchanged(this)
        invariant forall k :: 0 <= k < i || j <= k < nr ==> regions[k] == t[k]
        invariant forall k :: i <= k < j ==> regions[k] == t[k + 1]
      {
        regions[j] := regions[j + 1];
        j := j + 1;
      }
      regions[nr - 1] := Region(0, 0, 0);
      nr := nr - 1;
      Shifted(t, T(), i);
      DropBlank(t, i);
    }

    /** remove_active_range: exactly start..end is no longer covered on the node, also when a region
        is split, and no other node's coverage changes; except that a full table loses the part beyond
        the range when that needs an entry. */
    method RemoveActiveRange(nid: nat, start: nat, end: nat)
      requires Valid() && nid != ANY_NODE && start <= end
      modifies this, regions
      ensures Valid() && OthersSame(old(T()), T(), nid)
      ensures Removed(old(T()), T(), nid, start, end) <==> old(nr) < regions.Length || !NeedsEntry(old(T()), nid, start, end)
    {
      hide Covered, NeedsEntry, OthersSame;
      var removed := Shrink(nid, start, end);
      if !removed {
        return;
      }
      ghost var u := T();
      Compact(nid);
      SameStory(old(T()), u, T(), nid, start, end);
    }

    /** first_active_region_index_in_nid and next_active_region_index_in_nid: the next selected
        entry from i on, or -1. */
    method NextIndex(nid: nat, i: nat) returns (k: int)
      requires nr <= regions.Length
      ensures k == Next(T(), nid, i)
    {
      k := i;
      while k < nr
        invariant i <= k && Next(T(), nid, i) == Next(T(), nid, k)
      {
        if nid == ANY_NODE || regions[k].nid == nid {
          return;
        }
        k := k + 1;
      }
      k := -1;
    }

    /** __absent_pages_in_range: the pages of the range that no region of the node covers; except that
        it answers 0 for a node with no region at all. */
    method AbsentPagesInRange(nid: nat, start: nat, end: nat) returns (holes: int)
      requires nr <= regions.Length && Sorted(T(), nid) && start <= end
      ensures holes == if Next(T(), nid, 0) == -1 then 0 else Holes(T(), nid, start, end)
    {
      hide Sorted, Holes, EndedBy, Next, Covered, In, TableOk, Clamp, Selects;
      var i := NextIndex(nid, 0);
      if i == -1 {
        return 0;
      }
      ghost var t := T();
      FirstHoles(t, nid, i, start, end);
      var prev: int := if regions[i].start < end then regions[i].start else end;
      holes := 0;
      if regions[i].start > start {
        holes := prev - start;
      }
      while i != -1
        invariant -1 <= i < nr && (i != -1 ==> Selects(nid, t[i]) && prev <= t[i].start)
        invariant EndedBy(t, nid, if i == -1 then nr else i, prev)
        invariant holes == Holes(t, nid, start, Clamp(start, prev, end))
        decreases if i == -1 then 0 else nr - i
      {
        if prev >= end {
          break;
        }
        var s := if regions[i].start < end then regions[i].start else end;
        TurnHoles(t, nid, i, start, end, prev);
        prev := if prev > start then prev else start;
        if s > start {
          assert prev <= s;
          holes := holes + (s - prev);
        }
        prev := regions[i].end;
        NextEnded(t, nid, i);
        i := NextIndex(nid, i + 1);
      }
      ClampEnd(start, prev, end);
      if end > prev {
        LastHoles(t, nid, start, end, prev);
        holes := holes + (end - if start > prev then start else prev);
      }
    }
  }

  function Clamp(lo: int, x: int, hi: int): int {
    if x <= lo then lo else if x >= hi then hi else x
  }

  /** The selected regions before entry m end by q. */
  ghost predicate EndedBy(t: seq<Region>, nid: nat, m: nat, q: int) {
    forall j :: 0 <= j < m && j < |t| && Selects(nid, t[j]) ==> t[j].end <= q
  }

  lemma FirstHoles(t: seq<Region>, nid: nat, i: nat, start: int, end: int)
    requires Sorted(t, nid) && i == Next(t, nid, 0) && start <= end
    ensures i < |t| && Selects(nid, t[i])
    ensures var prev := if t[i].start < end then t[i].start else end;
            && prev <= t[i].start && EndedBy(t, nid, i, prev)
            && Holes(t, nid, start, Clamp(start, prev, end)) == if t[i].start > start then prev - start else 0
  {
    var prev := if t[i].start < end then t[i].start else end;
    GapHoles(t, nid, i, start, start, Clamp(start, prev, end));
  }

  lemma ClampEnd(lo: int, x: int, hi: int)
    requires lo <= hi
    ensures x >= hi ==> Clamp(lo, x, hi) == hi
  {}

  /** One turn of the loop accounts for the pages up to the end of region i. */
  lemma TurnHoles(t: seq<Region>, nid: nat, i: nat, start: int, end: int, prev: int)
    requires Sorted(t, nid) && i < |t| && Selects(nid, t[i]) && prev <= t[i].start && start <= end && prev < end
    requires EndedBy(t, nid, i, prev)
    ensures var s, p := if t[i].start < end then t[i].start else end, if prev > start then prev else start;
            && (s > start ==> p <= s)
            && Holes(t, nid, start, Clamp(start, t[i].end, end)) ==
               Holes(t, nid, start, Clamp(start, prev, end)) + (if s > start then s - p else 0)
  {
    var s := if t[i].start < end then t[i].start else end;
    GapHoles(t, nid, i, start, Clamp(start, prev, end), Clamp(start, s, end));
    RegionHoles(t, nid, i, start, Clamp(start, s, end), Clamp(start, t[i].end, end));
  }

  lemma NextEnded(t: seq<Region>, nid: nat, i: nat)
    requires Sorted(t, nid) && i < |t| && Selects(nid, t[i])
    ensures var k := Next(t, nid, i + 1);
            && EndedBy(t, nid, if k == -1 then |t| else k, t[i].end)
            && (k != -1 ==> i < k < |t| && Selects(nid, t[k]) && t[i].end <= t[k].start)
            && k >= -1
  {}

  lemma LastHoles(t: seq<Region>, nid: nat, start: int, end: int, prev: int)
    requires EndedBy(t, nid, |t|, prev) && start <= end && prev < end
    ensures Holes(t, nid, start, end) == Holes(t, nid, start, Clamp(start, prev, end)) + (end - if start > prev then start else prev)
  {
    GapHoles(t, nid, |t|, start, Clamp(start, prev, end), end);
  }

  /** Pages between the regions before entry m and those from it on are holes. */
  lemma {:induction false} GapHoles(t: seq<Region>, nid: nat, m: nat, lo: int, a: int, b: int)
    requires m <= |t| && lo <= a <= b
    requires forall j :: 0 <= j < m && Selects(nid, t[j]) ==> t[j].end <= a || a == b
    requires forall j :: m <= j < |t| && Selects(nid, t[j]) ==> b <= t[j].start || a == b
    ensures Holes(t, nid, lo, b) == Holes(t, nid, lo, a) + (b - a)
    decreases b - a
  {
    if a < b {
      assert !Covered(t, nid, b - 1);
      GapHoles(t, nid, m, lo, a, b - 1);
    }
  }

  lemma {:induction false} RegionHoles(t: seq<Region>, nid: nat, i: nat, lo: int, a: int, b: int)
    requires i < |t| && Selects(nid, t[i]) && lo <= a <= b && (a < b ==> t[i].start <= a && b <= t[i].end)
    ensures Holes(t, nid, lo, b) == Holes(t, nid, lo, a)
    decreases b - a
  {
    if a < b {
      assert In(t[i], nid, b - 1);
      RegionHoles(t, nid, i, lo, a, b - 1);
    }
  }

  ghost predicate Misses(r: Region, start: nat, end: nat) {
    start >= end || r.end <= start || end <= r.start || Blank(r)
  }

  ghost predicate Straddles(r: Region, start: nat) {
    r.start < start < r.end
  }

  /** What removing a range should do to the pages covered. */
  ghost predicate Removed(t: seq<Region>, u: seq<Region>, nid: nat, start: nat, end: nat) {
    forall q: int {:trigger Covered(u, nid, q)} :: Covered(u, nid, q) <==> Covered(t, nid, q) && !(start <= q < end)
  }

  /** Outside the range, coverage is as it was. */
  ghost predicate Keeps(t: seq<Region>, u: seq<Region>, nid: nat, start: nat, end: nat) {
    forall q: int {:trigger Covered(u, nid, q)} :: !(start <= q < end) ==> (Covered(u, nid, q) <==> Covered(t, nid, q))
  }

  /** With the rest as it was, and every region of the node missing the range, the range is removed. */
  lemma AllMiss(t: seq<Region>, u: seq<Region>, nid: nat, start: nat, end: nat)
    requires nid != ANY_NODE && Keeps(t, u, nid, start, end)
    requires forall k :: 0 <= k < |u| && u[k].nid == nid ==> Misses(u[k], start, end)
    ensures Removed(t, u, nid, start, end)
  {
    forall q: int | start <= q < end ensures !Covered(u, nid, q) {}
  }

  /** Region i is cut back to c, losing only pages of start..end. */
  lemma CutTable(t: seq<Region>, i: nat, c: Region, start: nat, end: nat)
    requires i < |t| && TableOk(t) && c.nid == t[i].nid && (c.start < c.end || Blank(c))
    requires || (Blank(c) && start <= t[i].start && t[i].end <= end)
             || (c.start == t[i].start && c.end == start && start < t[i].end <= end)
             || (c.end == t[i].end && c.start == end && start <= t[i].start <= end)
    ensures TableOk(t[i := c]) && Keeps(t, t[i := c], c.nid, start, end) && OthersSame(t, t[i := c], c.nid)
  {
    var u := t[i := c];
    forall k | 0 <= k < |t| && k != i && t[k].nid == c.nid ensures Disjoint(t[k], c) {
      assert Disjoint(t[k], t[i]) || Disjoint(t[i], t[k]);
    }
    ReplaceTable(t, i, c);
    forall n: nat, q: int
      ensures n == c.nid && !(start <= q < end) ==> (Covered(u, n, q) <==> Covered(t, n, q))
      ensures n != c.nid && n != ANY_NODE ==> (Covered(u, n, q) <==> Covered(t, n, q))
    {
      ReplaceCovers(t, i, c, n, q);
      SplitCovers(t, i, n, q);
    }
  }

  ghost predicate ClearFrom(t: seq<Region>, i: nat, nid: nat, start: nat) {
    forall k :: i <= k < |t| && t[k].nid == nid ==> !Straddles(t[k], start)
  }

  lemma ClearNext(t: seq<Region>, i: nat, nid: nat, start: nat)
    requires i < |t| && ClearFrom(t, i, nid, start)
    ensures ClearFrom(t, i + 1, nid, start) && (t[i].nid == nid ==> !Straddles(t[i], start))
  {}

  lemma ClearCut(t: seq<Region>, i: nat, c: Region, nid: nat, start: nat)
    requires i < |t| && ClearFrom(t, i + 1, nid, start)
    ensures ClearFrom(t[i := c], i + 1, nid, start)
  {}

  /** The first i entries have given up what they had of the range, and the rest are as they were. */
  ghost predicate Passed(t: seq<Region>, u: seq<Region>, i: nat, nid: nat, start: nat, end: nat)
    requires |u| == |t|
  {
    && (forall k :: 0 <= k < |t| ==> u[k].nid == t[k].nid)
    && (forall k :: i <= k < |t| ==> u[k] == t[k])
    && (forall k :: 0 <= k < i && k < |t| && t[k].nid == nid && (t[k].end <= start || end <= t[k].start) ==> u[k] == t[k])
    && (forall k :: 0 <= k < i && k < |t| ==> !Around(t[k], nid, start, end))
  }

  lemma PassedOver(t: seq<Region>, u: seq<Region>, i: nat, nid: nat, start: nat, end: nat)
    requires |u| == |t| && i < |t| && Passed(t, u, i, nid, start, end) && !Around(u[i], nid, start, end)
    ensures Passed(t, u, i + 1, nid, start, end)
  {}

  lemma PassedCut(t: seq<Region>, u: seq<Region>, i: nat, c: Region, nid: nat, start: nat, end: nat)
    requires |u| == |t| && i < |t| && Passed(t, u, i, nid, start, end) && !Around(u[i], nid, start, end)
    requires TableOk(u) && u[i].nid == c.nid == nid
    requires (Blank(c) && start <= u[i].start && u[i].end <= end) || (start < u[i].end && u[i].start < end)
    ensures Passed(t, u[i := c], i + 1, nid, start, end)
  {}

  lemma Unchanged(t: seq<Region>, nid: nat, start: nat, end: nat)
    ensures Passed(t, t, 0, nid, start, end) && Keeps(t, t, nid, start, end) && OthersSame(t, t, nid)
  {}

  lemma KeepsThrough(t: seq<Region>, u: seq<Region>, v: seq<Region>, nid: nat, start: nat, end: nat)
    requires nid != ANY_NODE && OthersSame(t, u, nid) && OthersSame(u, v, nid)
    ensures OthersSame(t, v, nid)
    ensures Keeps(t, u, nid, start, end) && Keeps(u, v, nid, start, end) ==> Keeps(t, v, nid, start, end)
    ensures Keeps(u, v, nid, start, end) && start <= end ==> (Covered(u, nid, end) <==> Covered(v, nid, end))
  {
    hide Covered;
  }

  /** Whether the part beyond the range finds a region to join. */
  lemma TailTouches(t: seq<Region>, u: seq<Region>, v: seq<Region>, i: nat, nid: nat, start: nat, end: nat)
    requires |u| == |t| && i < |t| && TableOk(t) && Passed(t, u, i, nid, start, end)
    requires Around(u[i], nid, start, end) && start <= end && v == u[i := Region(nid, u[i].start, start)]
    ensures Touches(v, Region(nid, end, u[i].end)) <==> !NeedsEntry(t, nid, start, end)
  {
    var r := Region(nid, end, u[i].end);
    assert Around(t[i], nid, start, end);
    forall k | 0 <= k < |t| && k != i && t[k].nid == nid
      ensures v[k] == t[k] && t[k].end != end && !Around(t[k], nid, start, end)
    {
      assert Disjoint(t[k], t[i]);
    }
    if start == end { assert Adjacent(v[i], r); }
    if StartsAt(t, nid, t[i].end) {
      var k :| 0 <= k < |t| && t[k].nid == nid && t[k].start == t[i].end;
      assert Adjacent(v[k], r);
    }
  }

  /** Page `end` was covered, and is not any more. */
  lemma TailLost(t: seq<Region>, u: seq<Region>, v: seq<Region>, i: nat, nid: nat, start: nat, end: nat)
    requires |u| == |t| && i < |t| && TableOk(t) && TableOk(u) && Passed(t, u, i, nid, start, end)
    requires Around(u[i], nid, start, end) && start <= end && v == u[i := Region(nid, u[i].start, start)]
    ensures Covered(t, nid, end) && !Covered(v, nid, end)
    ensures ClearFrom(v, i + 1, nid, start)
  {
    assert In(t[i], nid, end);
    forall k | 0 <= k < |v| && v[k].nid == nid ensures !In(v[k], nid, end) && !Straddles(v[k], start) {
      if k != i { assert Disjoint(u[k], u[i]); }
    }
  }

  lemma SameStory(t: seq<Region>, u: seq<Region>, v: seq<Region>, nid: nat, start: nat, end: nat)
    requires SameCover(u, v) && nid != ANY_NODE
    ensures Removed(t, u, nid, start, end) <==> Removed(t, v, nid, start, end)
    ensures OthersSame(t, u, nid) ==> OthersSame(t, v, nid)
  {
    hide Covered;
    assert forall q: int {:trigger Covered(u, nid, q)} {:trigger Covered(v, nid, q)} :: Covered(u, nid, q) <==> Covered(v, nid, q);
    if Removed(t, u, nid, start, end) { assert Removed(t, v, nid, start, end); }
    if Removed(t, v, nid, start, end) { assert Removed(t, u, nid, start, end); }
  }

  lemma LostOne(t: seq<Region>, u: seq<Region>, nid: nat, start: nat, end: nat)
    requires Covered(t, nid, end) && !Covered(u, nid, end)
    ensures !Removed(t, u, nid, start, end)
  {}

  lemma NoneAround(t: seq<Region>, u: seq<Region>, nid: nat, start: nat, end: nat)
    requires |u| == |t| && Passed(t, u, |t|, nid, start, end)
    ensures !NeedsEntry(t, nid, start, end)
  {}

  /** The part of a split region beyond the removed range overlaps nothing. */
  lemma TailFresh(t: seq<Region>, i: nat, u: seq<Region>, start: nat, end: nat)
    requires i < |t| && TableOk(t) && t[i].start < start <= end < t[i].end
    requires u == t[i := Region(t[i].nid, t[i].start, start)]
    ensures Fresh(u, Region(t[i].nid, end, t[i].end))
  {
    var r := Region(t[i].nid, end, t[i].end);
    forall k | 0 <= k < |u| && u[k].nid == r.nid ensures Disjoint(u[k], r) {
      if k != i { assert Disjoint(t[k], t[i]) || Disjoint(t[i], t[k]); }
    }
  }

  /** Splitting region i around the removed range. */
  lemma SplitKeeps(t: seq<Region>, i: nat, u: seq<Region>, v: seq<Region>, nid: nat, start: nat, end: nat)
    requires i < |t| && TableOk(t) && t[i].nid == nid && t[i].start < start <= end < t[i].end
    requires u == t[i := Region(nid, t[i].start, start)]
    requires Added(u, v, Region(nid, end, t[i].end)) && |u| <= |v| <= |u| + 1
    requires forall k :: 0 <= k < |u| ==> Grown(u[k], v[k], Region(nid, end, t[i].end))
    requires |v| > |u| ==> v[|u|] == Region(nid, end, t[i].end)
    ensures Keeps(t, v, nid, start, end)
    ensures ClearFrom(v, i + 1, nid, start)
    ensures forall k :: 0 <= k < |t| ==> v[k].nid == t[k].nid
    ensures forall k :: 0 <= k <= i && v[k].nid == nid && (k < i ==> Misses(t[k], start, end)) ==> Misses(v[k], start, end)
  {
    forall q: int | !(start <= q < end) ensures Covered(v, nid, q) <==> Covered(t, nid, q) {
      ReplaceCovers(t, i, u[i], nid, q);
      SplitCovers(t, i, nid, q);
    }
    forall k | 0 <= k < |v| && k != i && v[k].nid == nid ensures k > i ==> !Straddles(v[k], start)
      ensures k < i && Misses(t[k], start, end) ==> Misses(v[k], start, end)
    {
      if k < |t| { assert Disjoint(t[k], t[i]) || Disjoint(t[i], t[k]); }
    }
  }

  /** Every single node covers what it did. */
  ghost predicate SameCover(t: seq<Region>, u: seq<Region>) {
    forall n: nat, q: int {:trigger Covered(u, n, q)} :: Covered(u, n, q) <==> Covered(t, n, q)
  }

  lemma Shifted(t: seq<Region>, u: seq<Region>, i: nat)
    requires i < |t| && |u| == |t| - 1 && forall k :: 0 <= k < |u| ==> u[k] == t[if k < i then k else k + 1]
    ensures u == t[..i] + t[i + 1..]
  {}

  lemma DropBlank(t: seq<Region>, i: nat)
    requires i < |t| && TableOk(t) && Blank(t[i])
    ensures TableOk(t[..i] + t[i + 1..]) && SameCover(t, t[..i] + t[i + 1..])
  {
    var u := t[..i] + t[i + 1..];
    assert forall k :: 0 <= k < |u| ==> u[k] == if k < i then t[k] else t[k + 1];
    forall n: nat, q: int ensures Covered(u, n, q) <==> Covered(t, n, q) {
      if Covered(t, n, q) {
        var k :| 0 <= k < |t| && In(t[k], n, q);
        assert In(u[if k < i then k else k - 1], n, q);
      }
      if Covered(u, n, q) {
        var k :| 0 <= k < |u| && In(u[k], n, q);
        assert In(t[if k < i then k else k + 1], n, q);
      }
    }
  }

  /** The first selected entry from i on, or -1. */
  function Next(t: seq<Region>, nid: nat, i: nat): (k: int)
    ensures k == -1 || (i <= k < |t| && Selects(nid, t[k]))
    ensures forall j :: i <= j < |t| && (k == -1 || j < k) ==> !Selects(nid, t[j])
    decreases |t| - i
  {
    if i >= |t| then -1 else if Selects(nid, t[i]) then i else Next(t, nid, i + 1)
  }

  /** The selected regions are sorted and disjoint. */
  ghost predicate Sorted(t: seq<Region>, nid: nat) {
    && (forall i :: 0 <= i < |t| && Selects(nid, t[i]) ==> t[i].start <= t[i].end)
    && (forall i, j :: 0 <= i < j < |t| && Selects(nid, t[i]) && Selects(nid, t[j]) ==> t[i].end <= t[j].start)
  }

  /** The number of pages of lo..hi that no selected region covers. */
  ghost function Holes(t: seq<Region>, nid: nat, lo: int, hi: int): (n: nat)
    ensures hi >= lo ==> n <= hi - lo
    decreases hi - lo
  {
    if hi <= lo then 0 else Holes(t, nid, lo, hi - 1) + (if Covered(t, nid, hi - 1) then 0 else 1)
  }
}
