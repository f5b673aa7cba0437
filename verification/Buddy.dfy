/** The theory of buddy blocks: which sets of aligned power-of-two blocks the allocator can
    hold, and why the set is determined by the pages it covers. */
module Buddy {
  import opened Bits

  const MAX_ORDER: nat := 11

  /** A free block per head page: its order. */
  type Blocks = map<nat, nat>

  /** The twin of block p at order o. */
  function BuddyOf(p: nat, o: nat): int {
    if Bit(p, o) then p - Pow2(o) else p + Pow2(o)
  }

  ghost predicate Inside(q: int, p: nat, o: nat) {
    p <= q < p + Pow2(o)
  }

  ghost predicate Covers(b: Blocks, q: int) {
    exists p :: p in b && Inside(q, p, b[p])
  }

  ghost predicate Apart(p: nat, o: nat, q: nat, u: nat) {
    p + Pow2(o) <= q || q + Pow2(u) <= p
  }

  /** Orders in range and heads aligned, blocks pairwise disjoint, and no two
      buddies of one order below MAX_ORDER - 1 both free. */
  ghost predicate WellFormed(b: Blocks) {
    && (forall p :: p in b ==> b[p] < MAX_ORDER && Aligned(p, b[p]))
    && (forall p, q :: p in b && q in b && p != q ==> Apart(p, b[p], q, b[q]))
    && (forall p, q :: p in b && q in b && b[p] == b[q] && b[p] < MAX_ORDER - 1 ==> BuddyOf(p, b[p]) != q)
  }

  // ---------- alignment ----------

  /** An aligned block of order o + 1 is two buddies of order o. */
  lemma {:induction false} Halves(p: nat, o: nat)
    requires Aligned(p, o + 1)
    ensures Aligned(p, o) && Aligned(p + Pow2(o), o)
    ensures BuddyOf(p, o) == p + Pow2(o) && BuddyOf(p + Pow2(o), o) == p
    decreases o
  {
    if o > 0 {
      Halves(p / 2, o - 1);
      assert (p + Pow2(o)) / 2 == p / 2 + Pow2(o - 1);
    }
  }

  /** Two buddies of order o make one aligned block of order o + 1. */
  lemma {:induction false} Pair(p: nat, o: nat)
    requires Aligned(p, o)
    ensures BuddyOf(p, o) >= 0 && BuddyOf(p, o) != p
    ensures BuddyOf(p, o) > p ==> BuddyOf(p, o) == p + Pow2(o) && Aligned(p, o + 1)
    ensures BuddyOf(p, o) < p ==> BuddyOf(p, o) == p - Pow2(o) && Aligned(p - Pow2(o), o + 1)
    ensures Aligned(BuddyOf(p, o), o) && BuddyOf(BuddyOf(p, o), o) == p
    decreases o
  {
    hide Xor, AndNot;
    SingleBit(p, o);
    if o > 0 {
      Pair(p / 2, o - 1);
      assert BuddyOf(p, o) == 2 * BuddyOf(p / 2, o - 1);
    }
  }

  lemma NotOwnBuddy(p: nat, o: nat)
    ensures BuddyOf(p, o) != p
  {}

  lemma {:induction false} AlignedDown(p: nat, o: nat, u: nat)
    requires o <= u && Aligned(p, u)
    ensures Aligned(p, o)
    decreases u
  {
    if o < u {
      Halves(p, u - 1);
      AlignedDown(p, o, u - 1);
    }
  }

  /** Aligned blocks nest or are disjoint. */
  lemma {:induction false} Nest(p: nat, o: nat, q: nat, u: nat)
    requires o <= u && Aligned(p, o) && Aligned(q, u)
    ensures Apart(p, o, q, u) || (q <= p && p + Pow2(o) <= q + Pow2(u))
    decreases o
  {
    if o > 0 { Nest(p / 2, o - 1, q / 2, u - 1); }
  }

  // ---------- inserting and removing one block ----------

  lemma AddCovers(b: Blocks, p: nat, o: nat, q: int)
    requires p !in b
    ensures Covers(b[p := o], q) <==> Covers(b, q) || Inside(q, p, o)
  {
    var b' := b[p := o];
    if Covers(b, q) {
      var h :| h in b && Inside(q, h, b[h]);
      assert h in b' && Inside(q, h, b'[h]);
    }
    if Inside(q, p, o) {
      assert p in b' && Inside(q, p, b'[p]);
    }
    if Covers(b', q) && !Inside(q, p, o) {
      var h :| h in b' && Inside(q, h, b'[h]);
      assert h in b && Inside(q, h, b[h]);
    }
  }

  lemma AddApart(b: Blocks, p: nat, o: nat, q: nat)
    requires q in b
    requires forall x :: Inside(x, p, o) ==> !Covers(b, x)
    ensures p != q && Apart(p, o, q, b[q])
  {
    var x := if p <= q then q else p;
    if !Apart(p, o, q, b[q]) || p == q {
      assert Inside(x, q, b[q]) && Inside(x, p, o);
      assert Covers(b, x);
      assert false;
    }
  }

  lemma AddFits(b: Blocks, p: nat, o: nat, q: nat)
    requires WellFormed(b) && o < MAX_ORDER && Aligned(p, o) && q in b
    requires forall x :: Inside(x, p, o) ==> !Covers(b, x)
    requires o < MAX_ORDER - 1 ==> !(BuddyOf(p, o) in b && b[BuddyOf(p, o)] == o)
    ensures p != q && Apart(p, o, q, b[q]) && Apart(q, b[q], p, o)
    ensures b[q] == o && o < MAX_ORDER - 1 ==> BuddyOf(p, o) != q && BuddyOf(q, o) != p
  {
    hide BuddyOf, Covers, Inside, Aligned;
    AddApart(b, p, o, q);
    if b[q] == o { Pair(q, o); }
  }

  /** Adding an aligned block of uncovered pages whose buddy is not a block of that order. */
  lemma AddBlock(b: Blocks, p: nat, o: nat)
    requires WellFormed(b) && o < MAX_ORDER && Aligned(p, o)
    requires forall x :: Inside(x, p, o) ==> !Covers(b, x)
    requires o < MAX_ORDER - 1 ==> !(BuddyOf(p, o) in b && b[BuddyOf(p, o)] == o)
    ensures p !in b && WellFormed(b[p := o])
    ensures forall q :: Covers(b[p := o], q) <==> Covers(b, q) || Inside(q, p, o)
  {
    hide BuddyOf, Covers, Inside, Aligned, Apart;
    if p in b { AddApart(b, p, o, p); }
    forall q | q in b
      ensures p != q && Apart(p, o, q, b[q]) && Apart(q, b[q], p, o)
      ensures b[q] == o && o < MAX_ORDER - 1 ==> BuddyOf(p, o) != q && BuddyOf(q, o) != p
    {
      AddFits(b, p, o, q);
    }
    NotOwnBuddy(p, o);
    forall q ensures Covers(b[p := o], q) <==> Covers(b, q) || Inside(q, p, o) {
      AddCovers(b, p, o, q);
    }
  }

  lemma RemoveBlock(b: Blocks, p: nat)
    requires WellFormed(b) && p in b
    ensures WellFormed(b - {p})
    ensures forall q :: Covers(b - {p}, q) <==> Covers(b, q) && !Inside(q, p, b[p])
  {
    var b' := b - {p};
    assert b'[p := b[p]] == b;
    forall q ensures Covers(b', q) <==> Covers(b, q) && !Inside(q, p, b[p]) {
      AddCovers(b', p, b[p], q);
      if Covers(b', q) && Inside(q, p, b[p]) {
        assert false;
      }
    }
  }

  // ---------- the canonical form ----------

  ghost predicate Holds(b: Blocks, h: nat, o: nat, p: nat) {
    p in b && o <= b[p] && p <= h && h + Pow2(o) <= p + Pow2(b[p])
  }

  /** An aligned block all of whose pages are free lies inside one free block. */
  lemma {:induction false} FreeAlignedInsideBlock(b: Blocks, h: nat, o: nat) returns (p: nat)
    requires WellFormed(b) && o < MAX_ORDER && Aligned(h, o)
    requires forall q :: Inside(q, h, o) ==> Covers(b, q)
    ensures Holds(b, h, o, p)
    decreases o
  {
    hide WellFormed, Covers, Aligned, BuddyOf;
    if o == 0 {
      p := CoveredBlock(b, h);
    } else {
      var m := Pow2(o - 1);
      Halves(h, o - 1);
      p := FreeAlignedInsideBlock(b, h, o - 1);
      if b[p] >= o {
        BlockAligned(b, p);
        Nest(h, o, p, b[p]);
      } else {
        var p2 := FreeAlignedInsideBlock(b, h + m, o - 1);
        if b[p2] >= o {
          BlockAligned(b, p2);
          Nest(h, o, p2, b[p2]);
          p := p2;
        } else {
          assert p == h && p2 == h + m;
          NotTwins(b, p, p2, o - 1);
        }
      }
    }
  }

  lemma CoveredBlock(b: Blocks, h: nat) returns (p: nat)
    requires forall q :: Inside(q, h, 0) ==> Covers(b, q)
    ensures Holds(b, h, 0, p)
  {
    assert Inside(h, h, 0);
    p :| p in b && Inside(h, p, b[p]);
  }

  lemma BlockAligned(b: Blocks, p: nat)
    requires WellFormed(b) && p in b
    ensures b[p] < MAX_ORDER && Aligned(p, b[p])
  {}

  lemma NotTwins(b: Blocks, p: nat, q: nat, o: nat)
    requires WellFormed(b) && o < MAX_ORDER - 1 && BuddyOf(p, o) == q && p in b && q in b
    ensures !(b[p] == o && b[q] == o)
  {}

  lemma BlockInOther(a: Blocks, b: Blocks, p: nat)
    requires WellFormed(a) && WellFormed(b)
    requires forall q :: Covers(a, q) <==> Covers(b, q)
    requires p in a
    ensures p in b && b[p] == a[p]
  {
    assert forall q :: Inside(q, p, a[p]) ==> Covers(a, q);
    var p2 := FreeAlignedInsideBlock(b, p, a[p]);
    assert forall q :: Inside(q, p2, b[p2]) ==> Covers(b, q);
    var p3 := FreeAlignedInsideBlock(a, p2, b[p2]);
    assert p3 == p;
    Pow2Monotone(a[p], b[p2]);
  }

  /** The free blocks are a function of the free pages: two well-formed block sets that cover
      the same pages are the same set of heads with the same orders. */
  lemma Canonical(a: Blocks, b: Blocks)
    requires WellFormed(a) && WellFormed(b)
    requires forall q :: Covers(a, q) <==> Covers(b, q)
    ensures a == b
  {
    forall p | p in a ensures p in b && b[p] == a[p] { BlockInOther(a, b, p); }
    forall p | p in b ensures p in a { BlockInOther(b, a, p); }
  }

  ghost predicate AllCovered(b: Blocks, p: nat, o: nat) {
    forall q :: Inside(q, p, o) ==> Covers(b, q)
  }

  /** The block of order o + 1 that p and its buddy make. */
  function Parent(p: nat, o: nat): (r: nat) {
    if BuddyOf(p, o) < p && BuddyOf(p, o) >= 0 then BuddyOf(p, o) else p
  }

  lemma BlockParentNotFree(b: Blocks, p: nat)
    requires WellFormed(b) && p in b && b[p] < MAX_ORDER - 1
    ensures AllCovered(b, p, b[p]) && !AllCovered(b, Parent(p, b[p]), b[p] + 1)
  {
    var o := b[p];
    Pair(p, o);
    assert AllCovered(b, p, o);
    if AllCovered(b, Parent(p, o), o + 1) {
      var h := FreeAlignedInsideBlock(b, Parent(p, o), o + 1);
      assert false;
    }
  }

  /** The free blocks are exactly the maximal ones: an aligned run of free pages is a block of its
      own exactly when it is as large as blocks get, or its parent has a page in use. */
  lemma MaximalBlocks(b: Blocks, p: nat, o: nat)
    requires WellFormed(b)
    ensures p in b && b[p] == o <==>
            && o < MAX_ORDER && Aligned(p, o) && AllCovered(b, p, o)
            && (o < MAX_ORDER - 1 ==> !AllCovered(b, Parent(p, o), o + 1))
  {
    if p in b && b[p] == o {
      if o < MAX_ORDER - 1 { BlockParentNotFree(b, p); }
      assert AllCovered(b, p, o);
    } else if o < MAX_ORDER && Aligned(p, o) && AllCovered(b, p, o) {
      var h := FreeAlignedInsideBlock(b, p, o);
      assert b[h] > o;
      Pair(p, o);
      Nest(Parent(p, o), o + 1, h, b[h]);
      forall q | Inside(q, Parent(p, o), o + 1) ensures Covers(b, q) {
        assert Inside(q, h, b[h]);
      }
    }
  }
}
