/** The packed probability table of decompress.c: where each model's probability lives. */
module LzmaFormat {
  import opened Bits

  const LIT_SIZE: nat := 768

  const LEN_CHOICE: nat := 0
  const LEN_CHOICE_2: nat := 1
  const LEN_LOW: nat := 2
  const LEN_MID: nat := LEN_LOW + 128
  const LEN_HIGH: nat := LEN_MID + 128
  const NUM_LEN_PROBS: nat := LEN_HIGH + 256

  const NUM_STATES: nat := 12
  const NUM_LIT_STATES: nat := 7

  const START_POS_MODEL: nat := 4
  const END_POS_MODEL: nat := 14

  const IS_MATCH: nat := 0
  const IS_REP: nat := IS_MATCH + 192
  const IS_REP_G0: nat := IS_REP + 12
  const IS_REP_G1: nat := IS_REP_G0 + 12
  const IS_REP_G2: nat := IS_REP_G1 + 12
  const IS_REP_0_LONG: nat := IS_REP_G2 + 12
  const POS_SLOT: nat := IS_REP_0_LONG + 192
  const SPEC_POS: nat := POS_SLOT + 256
  const ALIGN: nat := SPEC_POS + 128 - END_POS_MODEL
  const LEN_CODER: nat := ALIGN + 16
  const REP_LEN_CODER: nat := LEN_CODER + NUM_LEN_PROBS
  const LITERAL: nat := REP_LEN_CODER + NUM_LEN_PROBS

  /** LZMA_BASE_SIZE, by which the table is allocated. */
  const BASE_SIZE: nat := 1846

  /** lc, lp and pb of the stream header. */
  datatype Props = Props(lc: nat, lp: nat, pb: nat)

  predicate PropsOk(pr: Props) {
    pr.lc <= 8 && pr.lp <= 4 && pr.pb <= 4
  }

  function NumProbs(pr: Props): nat {
    BASE_SIZE + LIT_SIZE * Pow2(pr.lc + pr.lp)
  }

  function PosState(pr: Props, pos: nat): nat {
    And(pos, Pow2(pr.pb) - 1)
  }

  function IsMatchAt(state: nat, ps: nat): nat { IS_MATCH + state * 16 + ps }

  function Rep0LongAt(state: nat, ps: nat): nat { IS_REP_0_LONG + state * 16 + ps }

  function PosSlotAt(len: nat): nat { POS_SLOT + (if len < 4 then len else 3) * 64 }

  /** The extra bits of a position slot, and the distance they are added to. */
  function SlotBits(slot: nat): nat
    requires slot >= START_POS_MODEL
  {
    slot / 2 - 1
  }

  function SlotLead(slot: nat): nat { 2 + slot % 2 }

  function SlotBase(slot: nat): int
    requires slot >= START_POS_MODEL
  {
    Shl(SlotLead(slot), SlotBits(slot))
  }

  /** Where the reverse tree of a slot below 14 starts; for slot 4 one entry early. */
  function SpecAt(slot: nat): int
    requires slot >= START_POS_MODEL
  {
    SPEC_POS + SlotBase(slot) - slot - 1
  }

  function LenLowAt(coder: nat, ps: nat): nat { coder + LEN_LOW + ps * 8 }

  function LenMidAt(coder: nat, ps: nat): nat { coder + LEN_MID + ps * 8 }

  /** The literal coder's context: low position bits above the high bits of the previous byte. */
  function LitContext(pr: Props, pos: nat, prev: nat): int
    requires pr.lc <= 8
  {
    Shl(And(pos, Pow2(pr.lp) - 1), pr.lc) + Shr(prev, 8 - pr.lc)
  }

  function LiteralAt(context: int): int { LITERAL + LIT_SIZE * context }

  // ---------- bounds ----------

  lemma {:induction false} ShlBelow(x: int, n: nat, k: nat)
    requires x < Pow2(k)
    ensures Shl(x, n) + Pow2(n) <= Pow2(k + n)
  {
    if n > 0 { ShlBelow(x, n - 1, k); }
  }

  lemma {:induction false} ShrBelow(a: nat, n: nat, k: nat)
    requires a < Pow2(n + k)
    ensures Shr(a, n) < Pow2(k)
  {
    if n > 0 { ShrBelow(a / 2, n - 1, k); }
  }

  lemma LitContextBound(pr: Props, pos: nat, prev: nat)
    requires PropsOk(pr) && prev < 256
    ensures 0 <= LitContext(pr, pos, prev) < Pow2(pr.lc + pr.lp)
  {
    LowMask(pos, pr.lp);
    assert Pow2(8 - pr.lc + pr.lc) == 256;
    ShrBelow(prev, 8 - pr.lc, pr.lc);
    ShlBelow(And(pos, Pow2(pr.lp) - 1), pr.lc, pr.lp);
    ShlNat(And(pos, Pow2(pr.lp) - 1), pr.lc);
  }

  lemma PosStateBound(pr: Props, pos: nat)
    requires PropsOk(pr)
    ensures PosState(pr, pos) < 16
  {
    LowMask(pos, pr.pb);
    Pow2Monotone(pr.pb, 4);
    assert Pow2(4) == 16;
  }

  // ---------- the table holds every model apart ----------

  /** A probability: which model, in which context, at which tree node. */
  datatype Prob =
    | IsMatch(state: nat, ps: nat)
    | IsRep(state: nat)
    | IsRepG(which: nat, state: nat)
    | Rep0Long(state: nat, ps: nat)
    | Slot(lenState: nat, node: nat)
    | Spec(slot: nat, node: nat)
    | Align(node: nat)
    | Choice(rep: bool, which: nat)
    | Low(rep: bool, ps: nat, node: nat)
    | Mid(rep: bool, ps: nat, node: nat)
    | High(rep: bool, node: nat)
    | Literal(context: nat, node: nat)

  ghost predicate Exists(pr: Props, p: Prob) {
    match p
    case IsMatch(st, ps) => st < 12 && ps < 16
    case IsRep(st) => st < 12
    case IsRepG(w, st) => w < 3 && st < 12
    case Rep0Long(st, ps) => st < 12 && ps < 16
    case Slot(l, n) => l < 4 && 1 <= n < 64
    case Spec(s, n) => 4 <= s < 14 && 1 <= n < Pow2(SlotBits(s))
    case Align(n) => 1 <= n < 16
    case Choice(_, w) => w < 2
    case Low(_, ps, n) => ps < 16 && 1 <= n < 8
    case Mid(_, ps, n) => ps < 16 && 1 <= n < 8
    case High(_, n) => 1 <= n < 256
    case Literal(c, n) => c < Pow2(pr.lc + pr.lp) && 1 <= n < LIT_SIZE
  }

  function Coder(rep: bool): nat {
    if rep then REP_LEN_CODER else LEN_CODER
  }

  function Address(p: Prob): int
    requires p.Spec? ==> p.slot >= 4
  {
    match p
    case IsMatch(st, ps) => IsMatchAt(st, ps)
    case IsRep(st) => IS_REP + st
    case IsRepG(w, st) => IS_REP_G0 + 12 * w + st
    case Rep0Long(st, ps) => Rep0LongAt(st, ps)
    case Slot(l, n) => PosSlotAt(l) + n
    case Spec(s, n) => SpecAt(s) + n
    case Align(n) => ALIGN + n
    case Choice(r, w) => Coder(r) + LEN_CHOICE + w
    case Low(r, ps, n) => LenLowAt(Coder(r), ps) + n
    case Mid(r, ps, n) => LenMidAt(Coder(r), ps) + n
    case High(r, n) => Coder(r) + LEN_HIGH + n
    case Literal(c, n) => LiteralAt(c) + n
  }

  /** First entry of the i-th region of the table. */
  function RegionStart(i: nat): nat {
    if i == 0 then IS_MATCH else if i == 1 then IS_REP else if i == 2 then IS_REP_G0
    else if i == 3 then IS_REP_0_LONG else if i == 4 then POS_SLOT else if i == 5 then SPEC_POS
    else if i == 6 then ALIGN else if i == 7 then LEN_CODER else if i == 8 then LEN_CODER + LEN_LOW
    else if i == 9 then LEN_CODER + LEN_MID else if i == 10 then LEN_CODER + LEN_HIGH
    else if i == 11 then REP_LEN_CODER else if i == 12 then REP_LEN_CODER + LEN_LOW
    else if i == 13 then REP_LEN_CODER + LEN_MID else if i == 14 then REP_LEN_CODER + LEN_HIGH
    else LITERAL
  }

  function Region(p: Prob): nat {
    match p
    case IsMatch(_, _) => 0 case IsRep(_) => 1 case IsRepG(_, _) => 2 case Rep0Long(_, _) => 3
    case Slot(_, _) => 4 case Spec(_, _) => 5 case Align(_) => 6
    case Choice(r, _) => if r then 11 else 7
    case Low(r, _, _) => if r then 12 else 8
    case Mid(r, _, _) => if r then 13 else 9
    case High(r, _) => if r then 14 else 10
    case Literal(_, _) => 15
  }

  /** The distances of a slot end where those of the next one begin. */
  lemma NextSlot(slot: nat)
    requires slot >= START_POS_MODEL
    ensures SlotBase(slot + 1) == SlotBase(slot) + Pow2(SlotBits(slot))
  {
    var n := SlotBits(slot);
    ShlAdd(2, 1, n);
    if slot % 2 == 1 { ShlAdd(2, 2, n); ShlAdd(3, 1, n); }
  }

  lemma {:induction false} SpecOrdered(a: nat, b: nat)
    requires 4 <= a < b
    ensures SpecAt(a) + Pow2(SlotBits(a)) <= SpecAt(b) + 1
    decreases b
  {
    hide SlotBase, SlotBits, Pow2;
    NextSlot(b - 1);
    if a < b - 1 { SpecOrdered(a, b - 1); }
  }

  lemma SpecEnds()
    ensures SpecAt(4) + 1 == SPEC_POS && SpecAt(13) + Pow2(SlotBits(13)) == ALIGN
  {}

  /** The reverse trees of slots 4 to 13 are packed one right after another, from entry 0 of SPEC_POS
      to its entry 113. */
  lemma SpecRange(slot: nat)
    requires 4 <= slot < 14
    ensures SPEC_POS <= SpecAt(slot) + 1 && SpecAt(slot) + Pow2(SlotBits(slot)) <= ALIGN
    ensures slot < 13 ==> SpecAt(slot + 1) + 1 == SpecAt(slot) + Pow2(SlotBits(slot))
  {
    hide SlotBase, SlotBits, Pow2;
    SpecEnds();
    NextSlot(slot);
    if slot > 4 { SpecOrdered(4, slot); }
    if slot < 13 { SpecOrdered(slot, 13); }
  }

  /** Every probability lies in its model's region, so inside the allocated table. */
  lemma InRegion(pr: Props, p: Prob)
    requires PropsOk(pr) && Exists(pr, p)
    ensures RegionStart(Region(p)) <= Address(p)
    ensures if Region(p) < 15 then Address(p) < RegionStart(Region(p) + 1) else Address(p) < NumProbs(pr)
    ensures 0 <= Address(p) < NumProbs(pr)
  {
    hide SlotBits, SpecAt, Pow2;
    assert NumProbs(pr) >= BASE_SIZE == LITERAL;
    match p {
      case Spec(s, n) => SpecRange(s);
      case Literal(c, n) => assert LIT_SIZE * (c + 1) <= LIT_SIZE * Pow2(pr.lc + pr.lp);
      case _ =>
    }
  }

  lemma RegionsOrdered(i: nat, j: nat)
    requires i < j <= 15
    ensures RegionStart(i + 1) <= RegionStart(j)
  {}

  lemma SameRegionInjective(pr: Props, p: Prob, q: Prob)
    requires Exists(pr, p) && Exists(pr, q) && Address(p) == Address(q) && Region(p) == Region(q)
    ensures p == q
  {
    hide Exists, Address;
    match p {
      case Spec(_, _) => SpecInjective(pr, p, q);
      case Literal(_, _) => LiteralInjective(pr, p, q);
      case Slot(_, _) => SlotInjective(pr, p, q);
      case Choice(_, _) => ChoiceInjective(pr, p, q);
      case Low(_, _, _) => LowInjective(pr, p, q);
      case Mid(_, _, _) => MidInjective(pr, p, q);
      case High(_, _) => HighInjective(pr, p, q);
      case _ => FlagInjective(pr, p, q);
    }
  }

  lemma FlagInjective(pr: Props, p: Prob, q: Prob)
    requires p.IsMatch? || p.IsRep? || p.IsRepG? || p.Rep0Long? || p.Align?
    requires Exists(pr, p) && Exists(pr, q) && Address(p) == Address(q) && Region(p) == Region(q)
    ensures p == q
  {
    hide SlotBits, SpecAt, Pow2;
  }

  lemma ChoiceInjective(pr: Props, p: Prob, q: Prob)
    requires p.Choice? && q.Choice? && Region(p) == Region(q)
    requires Exists(pr, p) && Exists(pr, q) && Address(p) == Address(q)
    ensures p == q
  {
    hide SlotBits, SpecAt, Pow2;
  }

  lemma LowInjective(pr: Props, p: Prob, q: Prob)
    requires p.Low? && q.Low? && Region(p) == Region(q)
    requires Exists(pr, p) && Exists(pr, q) && Address(p) == Address(q)
    ensures p == q
  {
    hide SlotBits, SpecAt, Pow2;
  }

  lemma MidInjective(pr: Props, p: Prob, q: Prob)
    requires p.Mid? && q.Mid? && Region(p) == Region(q)
    requires Exists(pr, p) && Exists(pr, q) && Address(p) == Address(q)
    ensures p == q
  {
    hide SlotBits, SpecAt, Pow2;
  }

  lemma HighInjective(pr: Props, p: Prob, q: Prob)
    requires p.High? && q.High? && Region(p) == Region(q)
    requires Exists(pr, p) && Exists(pr, q) && Address(p) == Address(q)
    ensures p == q
  {
    hide SlotBits, SpecAt, Pow2;
  }

  lemma SlotInjective(pr: Props, p: Prob, q: Prob)
    requires p.Slot? && q.Slot? && Exists(pr, p) && Exists(pr, q) && Address(p) == Address(q)
    ensures p == q
  {}

  lemma SpecInjective(pr: Props, p: Prob, q: Prob)
    requires p.Spec? && q.Spec? && Exists(pr, p) && Exists(pr, q) && Address(p) == Address(q)
    ensures p == q
  {
    hide SlotBits, SpecAt, Pow2;
    if p.slot < q.slot { SpecOrdered(p.slot, q.slot); }
    if q.slot < p.slot { SpecOrdered(q.slot, p.slot); }
  }

  lemma LiteralInjective(pr: Props, p: Prob, q: Prob)
    requires p.Literal? && q.Literal? && Exists(pr, p) && Exists(pr, q) && Address(p) == Address(q)
    ensures p == q
  {
    hide Pow2;
  }

  /** No two probabilities share an entry. */
  lemma LayoutInjective(pr: Props, p: Prob, q: Prob)
    requires PropsOk(pr) && Exists(pr, p) && Exists(pr, q) && Address(p) == Address(q)
    ensures p == q
  {
    InRegion(pr, p);
    InRegion(pr, q);
    assert Region(p) == Region(q) by {
      hide Exists, Address;
      if Region(p) < Region(q) { RegionsOrdered(Region(p), Region(q)); }
      if Region(q) < Region(p) { RegionsOrdered(Region(q), Region(p)); }
    }
    SameRegionInjective(pr, p, q);
  }

  lemma {:induction false} ShlSplit(x: int, y: nat, x': int, y': nat, n: nat)
    requires y < Pow2(n) && y' < Pow2(n) && Shl(x, n) + y == Shl(x', n) + y'
    ensures x == x' && y == y'
  {
    if n > 0 { ShlSplit(x, y / 2, x', y' / 2, n - 1); }
  }

  /** Different position bits or different high bits of the previous byte are different contexts. */
  lemma LitContextInjective(pr: Props, pos: nat, prev: nat, pos': nat, prev': nat)
    requires PropsOk(pr) && prev < 256 && prev' < 256
    requires LitContext(pr, pos, prev) == LitContext(pr, pos', prev')
    ensures And(pos, Pow2(pr.lp) - 1) == And(pos', Pow2(pr.lp) - 1)
    ensures Shr(prev, 8 - pr.lc) == Shr(prev', 8 - pr.lc)
  {
    assert Pow2(8 - pr.lc + pr.lc) == 256;
    ShrBelow(prev, 8 - pr.lc, pr.lc);
    ShrBelow(prev', 8 - pr.lc, pr.lc);
    ShlSplit(And(pos, Pow2(pr.lp) - 1), Shr(prev, 8 - pr.lc),
             And(pos', Pow2(pr.lp) - 1), Shr(prev', 8 - pr.lc), pr.lc);
  }

  // ---------- distances ----------

  /** A distance's leading two bits and the number of bits below them. */
  function Lead(dist: nat): (r: (nat, nat))
    requires dist >= 2
    ensures r.0 == 2 || r.0 == 3
  {
    if dist < 4 then (dist, 0)
    else var (l, n) := Lead(dist / 2); (l, n + 1)
  }

  function SlotOf(dist: nat): nat {
    if dist < 4 then dist
    else var (l, n) := Lead(dist); 2 * (n + 1) + (l - 2)
  }

  lemma LeadDeep(dist: nat)
    requires dist >= 4
    ensures Lead(dist).1 >= 1
  {}

  lemma {:induction false} LeadSplits(dist: nat)
    requires dist >= 2
    ensures var (l, n) := Lead(dist); 0 <= dist - Shl(l, n) < Pow2(n)
  {
    if dist >= 4 { LeadSplits(dist / 2); }
  }

  lemma {:induction false} LeadOf(l: nat, n: nat, x: nat)
    requires (l == 2 || l == 3) && x < Pow2(n)
    ensures Shl(l, n) + x >= 2 && Lead(Shl(l, n) + x) == (l, n)
  {
    if n > 0 {
      LeadOf(l, n - 1, x / 2);
      var y := Shl(l, n) + x;
      assert y / 2 == Shl(l, n - 1) + x / 2;
    }
  }

  lemma {:induction false} LeadSize(dist: nat, k: nat)
    requires 2 <= dist < Pow2(k)
    ensures Lead(dist).1 + 2 <= k
  {
    if dist >= 4 { LeadSize(dist / 2, k - 1); } else { assert Pow2(1) == 2; assert k >= 2; }
  }

  lemma Pow2At32()
    ensures Pow2(32) == 0x1_0000_0000
  {
    assert Pow2(8) == 256;
    Pow2Add(8, 8);
    Pow2Add(16, 16);
  }

  /** Every 32-bit distance has a slot below 64 and extra bits within the slot's width... */
  lemma DistanceSplits(dist: nat)
    requires dist < 0x1_0000_0000
    ensures SlotOf(dist) < 64
    ensures dist >= 4 ==>
      && SlotOf(dist) >= START_POS_MODEL
      && 0 <= dist - SlotBase(SlotOf(dist)) < Pow2(SlotBits(SlotOf(dist)))
  {
    if dist >= 4 {
      Pow2At32();
      LeadSize(dist, 32);
      LeadSplits(dist);
      LeadDeep(dist);
    }
  }

  /** ... and slot and extra bits determine the distance: the map is a bijection. */
  lemma DistanceJoins(slot: nat, x: nat)
    requires START_POS_MODEL <= slot < 64 && x < Pow2(SlotBits(slot))
    ensures 4 <= SlotBase(slot) + x < 0x1_0000_0000
    ensures SlotOf(SlotBase(slot) + x) == slot
  {
    var l, n := SlotLead(slot), SlotBits(slot);
    LeadOf(l, n, x);
    ShlBelow(l, n, 2);
    Pow2Monotone(n + 2, 32);
    Pow2At32();
    Pow2Monotone(1, n);
    LeadSmall(SlotBase(slot) + x);
  }

  lemma LeadSmall(dist: nat)
    requires dist >= 2 && Lead(dist).1 >= 1
    ensures dist >= 4
  {}
}
