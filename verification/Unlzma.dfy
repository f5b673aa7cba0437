/** unlzma in linear mode, as do_decompress calls it: the registers of struct rc, the probability
    table and the output buffer are changed in place. error() halts, so a method that meets it
    returns Fail and its caller does nothing more. */
module Unlzma {
  import opened Bits
  import opened RangeCoder
  import opened LzmaFormat
  import opened LzmaCodec
  import opened LzmaStream
  import opened LzmaRun
  import opened LzmaFile

  datatype Res<+T> = Fail(why: Why) | Ok(value: T) {
    predicate IsFailure() { Fail? }
    function PropagateFailure<U>(): Res<U>
      requires Fail?
    {
      Fail(why)
    }
    function Extract(): T
      requires Ok?
    {
      value
    }
  }

  /** A method did what the decoder function says: it halted for the same reason, or returned the
      same value with the registers in the same state. */
  ghost predicate Agrees<T>(o: Outcome<T>, r: Res<T>, d: Dec) {
    match o
    case Halt(why) => r == Fail(why)
    case Got(v, e) => r == Ok(v) && d == e
  }

  class Decoder {
    const input: seq<Byte>
    var ptr: nat
    var code: int
    var range: int
    var bound: int
    const p: array<int>

    constructor (input: seq<Byte>, n: nat)
      ensures this.input == input && ptr == 0 && code == 0 && range == U32 - 1
      ensures p.Length == n && fresh(p) && p[..] == InitialProbs(n)
    {
      this.input := input;
      ptr, code, range, bound := 0, 0, U32 - 1, 0;
      p := new int[n](_ => TOTAL / 2);
      new;
      assert p[..] == InitialProbs(n);
    }

    ghost function D(): Dec
      reads this, p
    {
      Dec(code, range, ptr, p[..])
    }

    ghost predicate Valid()
      reads this, p
    {
      DecOk(D())
    }

    /** rc_init_code. */
    method RcInitCode() returns (r: Res<()>)
      requires ptr == 0 && code == 0 && range == U32 - 1 && p[..] == InitialProbs(p.Length)
      modifies this
      ensures Agrees(Init(input, p.Length), r, D())
    {
      for i := 0 to 5
        invariant ptr == i <= |input| && code == InitCode(input, i) && range == U32 - 1
      {
        if ptr >= |input| {
          return Fail(UnexpectedEof);
        }
        code := code * 256 % U32 + input[ptr];
        ptr := ptr + 1;
      }
      r := Ok(());
    }

    /** rc_normalize, with rc_do_normalize and rc_read. */
    method RcNormalize() returns (r: Res<()>)
      requires Valid()
      modifies this
      ensures Agrees(Normalize(input, old(D())), r, D())
    {
      if range < TOP {
        if ptr >= |input| {
          return Fail(UnexpectedEof);
        }
        range := range * 256 % U32;
        code := code * 256 % U32 + input[ptr];
        ptr := ptr + 1;
      }
      r := Ok(());
    }

    /** rc_is_bit_0. */
    method RcIsBit0(i: nat) returns (r: Res<bool>)
      requires Valid() && i < p.Length
      modifies this
      ensures var o := Normalize(input, old(D()));
              && (o.Halt? ==> r == Fail(o.why))
              && (o.Got? ==> D() == o.dec && bound == Bound(range, p[i]) && r == Ok(code < bound))
    {
      var _ :- RcNormalize();
      bound := p[i] * (range / TOTAL);
      r := Ok(code < bound);
    }

    method RcUpdateBit0(i: nat)
      requires i < p.Length
      modifies this, p
      ensures D() == old(D()).(range := old(bound), probs := old(p[..])[i := Up(old(p[i]))])
    {
      range := bound;
      p[i] := p[i] + (TOTAL - p[i]) / 32;
    }

    method RcUpdateBit1(i: nat)
      requires i < p.Length
      modifies this, p
      ensures D() == old(D()).(range := old(range) - old(bound), code := old(code) - old(bound),
                               probs := old(p[..])[i := Down(old(p[i]))])
    {
      range := range - bound;
      code := code - bound;
      p[i] := p[i] - p[i] / 32;
    }

    /** rc_get_bit, and the same test and update where the code writes them out. */
    method RcGetBit(i: nat) returns (r: Res<bool>)
      requires Valid() && i < p.Length
      modifies this, p
      ensures Agrees(Step(input, old(D()), Model(i)), r, D())
    {
      var zero :- RcIsBit0(i);
      if zero {
        RcUpdateBit0(i);
        r := Ok(false);
      } else {
        RcUpdateBit1(i);
        r := Ok(true);
      }
    }

    method RcDirectBit() returns (r: Res<bool>)
      requires Valid()
      modifies this
      ensures Agrees(Step(input, old(D()), Direct), r, D())
    {
      var _ :- RcNormalize();
      range := range / 2;
      if code >= range {
        code := code - range;
        return Ok(true);
      }
      r := Ok(false);
    }

    /** rc_bit_tree_decode. */
    method RcBitTreeDecode(base: nat, levels: nat) returns (r: Res<nat>)
      requires Valid() && levels >= 1 && base + Pow2(levels) <= p.Length
      modifies this, p
      ensures Agrees(BitTree(input, old(D()), base, levels), r, D())
    {
      hide Step, DecOk, Shl, Pow2;
      ShlOfOne(levels - 1);
      ShlOfOne(levels);
      TreeFitsFrom1(base, levels, p.Length);
      var symbol: nat, i := 1, levels;
      while i > 0
        invariant i <= levels && Valid() && symbol >= 1 && TreeFits(base, i, symbol, p.Length)
        invariant TreeDec(input, D(), base, i, symbol) == TreeDec(input, old(D()), base, levels, 1)
      {
        TreeDecStep(input, D(), base, i, symbol);
        var bit :- RcGetBit(base + symbol);
        symbol := symbol * 2 + Bit01(bit);
        i := i - 1;
      }
      r := Ok(symbol - Pow2(levels));
    }

    /** The length part of process_bit1, from the length coder at `coder`. */
    method DecodeLength(coder: nat, ps: nat) returns (r: Res<nat>)
      requires Valid() && ps < 16 && coder + NUM_LEN_PROBS <= p.Length
      modifies this, p
      ensures Agrees(LenDec(input, old(D()), coder, ps), r, D())
    {
      hide Step, BitTree, DecOk;
      var probLen: nat, offset: nat, bits: nat;
      var b :- RcGetBit(coder + LEN_CHOICE);
      if !b {
        probLen, offset, bits := coder + LEN_LOW + ps * 8, 0, 3;
      } else {
        var b2 :- RcGetBit(coder + LEN_CHOICE_2);
        if !b2 {
          probLen, offset, bits := coder + LEN_MID + ps * 8, 8, 3;
        } else {
          probLen, offset, bits := coder + LEN_HIGH, 16, 8;
        }
      }
      var len :- RcBitTreeDecode(probLen, bits);
      r := Ok(len + offset);
    }

    /** The loop of process_bit1 that sets the low bits of a distance, lowest first. */
    method DecodeLowBits(prob: int, bits: nat, dist: nat) returns (r: Res<nat>)
      requires Valid() && prob + 1 >= 0 && TreeFits(prob, bits, 1, p.Length) && Aligned(dist, bits)
      modifies this, p
      ensures match RevDec(input, old(D()), prob, bits, 1)
              case Halt(why) => r == Fail(why)
              case Got(x, e) => r == Ok(dist + x) && D() == e
    {
      hide Step, DecOk, Shl, Or, Joined, Aligned, RevDec;
      var rep0 := dist;
      var i: nat, mi: nat, n: nat := 1, 1, bits;
      ghost var x: nat, j: nat := 0, 0;
      JoinedStart(RevDec(input, D(), prob, bits, 1));
      while n > 0
        invariant n + j == bits && i == Pow2(j) && x < Pow2(j) && rep0 == dist + x
        invariant Valid() && mi >= 1 && TreeFits(prob, n, mi, p.Length) && prob + mi >= 0
        invariant Joined(RevDec(input, old(D()), prob, bits, 1), RevDec(input, D(), prob, n, mi), x, j)
        decreases n
      {
        RevDecStep(input, D(), prob, n, mi);
        ghost var before := RevDec(input, D(), prob, n, mi);
        if before.Halt? { JoinedHalt(RevDec(input, old(D()), prob, bits, 1), before.why, x, j); }
        var b :- RcGetBit(prob + mi);
        JoinedStep(RevDec(input, old(D()), prob, bits, 1), before, RevDec(input, D(), prob, n - 1, 2 * mi + Bit01(b)), x, j, b);
        mi := mi * 2 + Bit01(b);
        if b {
          OrSetsBit(dist, bits, x, j);
          rep0 := Or(rep0, i);
          x := x + Pow2(j);
        }
        i := i * 2;
        j := j + 1;
        n := n - 1;
      }
      RevDecNone(input, D(), prob, mi);
      JoinedLast(RevDec(input, old(D()), prob, bits, 1), D(), x, j);
      r := Ok(rep0);
    }

    /** The distance part of process_bit1: the distance less one. */
    method DecodeDistance(len: nat) returns (r: Res<nat>)
      requires Valid() && BASE_SIZE <= p.Length
      modifies this, p
      ensures Agrees(DistDec(input, old(D()), len), r, D())
    {
      hide Step, BitTree, DecOk, Shl, DistDec, SlotDec;
      PowSix();
      DistSplit(input, D(), len);
      var slot :- RcBitTreeDecode(POS_SLOT + (if len < 4 then len else 3) * 64, 6);
      r := DecodeSlot(slot);
    }

    /** The bits below the slot. */
    method DecodeSlot(slot: nat) returns (r: Res<nat>)
      requires Valid() && BASE_SIZE <= p.Length && slot < 64
      modifies this, p
      ensures Agrees(SlotDec(input, old(D()), slot), r, D())
    {
      hide Step, RevDec, DirectDec, DecOk, Shl;
      if slot < START_POS_MODEL {
        return Ok(slot);
      }
      var bits: nat := slot / 2 - 1;
      var rep0: nat := 2 + slot % 2;
      if slot < END_POS_MODEL {
        SpecFits(slot, p.Length);
        ShlAligned(rep0, bits);
        ShlNat(rep0, bits);
        rep0 := Shl(rep0, bits);
        r := DecodeLowBits(SPEC_POS + rep0 - slot - 1, bits, rep0);
      } else {
        rep0 :- RcDirectBits(bits - 4, rep0);
        TreeFitsFrom1(ALIGN, 4, p.Length);
        ShiftFour(rep0);
        rep0 := rep0 * 16;
        r := DecodeLowBits(ALIGN, 4, rep0);
      }
    }

    /** The run of even bits of a distance. */
    method RcDirectBits(bits: nat, acc: nat) returns (r: Res<nat>)
      requires Valid()
      modifies this
      ensures Agrees(DirectDec(input, old(D()), bits, acc), r, D())
    {
      var rep0: nat, n: nat := acc, bits;
      while n > 0
        invariant Valid()
        invariant DirectDec(input, D(), n, rep0) == DirectDec(input, old(D()), bits, acc)
      {
        DirectDecStep(input, D(), n, rep0);
        var b :- RcDirectBit();
        rep0 := rep0 * 2 + Bit01(b);
        n := n - 1;
      }
      r := Ok(rep0);
    }

    /** The first bit loop of process_bit0: while the bits agree with the byte at distance rep0. */
    method DecodeMatched(prob: nat, mb: nat) returns (r: Res<nat>, ghost k: nat)
      requires Valid() && prob + LIT_SIZE <= p.Length && LitNode(8, 1)
      modifies this, p
      ensures r.Fail? ==> MatchedDec(input, old(D()), prob, mb, 8, 1) == Halt(r.why)
      ensures r.Ok? ==>
                && Valid() && LitNode(k, r.value)
                && LitRest(input, D(), prob, k, r.value) == MatchedDec(input, old(D()), prob, mb, 8, 1)
    {
      hide Step, TreeDec, DecOk, Shl, MatchedDec;
      var mi: nat := 1;
      k := 8;
      var matchByte := mb;
      while true
        invariant k <= 8 && Valid() && LitNode(k, mi) && k > 0
        invariant MatchedDec(input, D(), prob, matchByte, k, mi) == MatchedDec(input, old(D()), prob, mb, 8, 1)
        decreases k
      {
        MatchedDecStep(input, D(), prob, matchByte, k, mi);
        matchByte := matchByte * 2;
        var bit := matchByte / 256 % 2 == 1;
        var b :- RcGetBit(prob + 256 + (if bit then 256 else 0) + mi);
        mi := mi * 2 + Bit01(b);
        k := k - 1;
        LitEnd(k, mi);
        if b != bit {
          return Ok(mi), k;
        }
        if mi >= 256 {
          MatchedEnd(input, D(), prob, matchByte, mi);
          return Ok(mi), k;
        }
      }
    }

    /** The second bit loop of process_bit0. */
    method DecodePlain(prob: nat, start: nat, ghost k0: nat) returns (r: Res<nat>)
      requires Valid() && prob + LIT_SIZE <= p.Length && LitNode(k0, start)
      modifies this, p
      ensures Agrees(LitRest(input, old(D()), prob, k0, start), r, D())
    {
      hide Step, DecOk, Shl;
      var mi: nat := start;
      ghost var k := k0;
      LitEnd(k, mi);
      while mi < 256
        invariant Valid() && LitNode(k, mi) && (mi < 256 <==> k > 0)
        invariant LitRest(input, D(), prob, k, mi) == LitRest(input, old(D()), prob, k0, start)
        decreases k
      {
        LitTree(prob, k, mi, p.Length);
        LitStep(k, mi, false);
        LitStep(k, mi, true);
        TreeDecStep(input, D(), prob, k, mi);
        var b :- RcGetBit(prob + mi);
        mi := mi * 2 + Bit01(b);
        k := k - 1;
        LitEnd(k, mi);
      }
      r := Ok(mi);
    }

    /** A literal byte; the byte at distance rep0 matters when the last packet copied. */
    method DecodeLiteral(prob: nat, matched: bool, mb: nat) returns (r: Res<nat>)
      requires Valid() && prob + LIT_SIZE <= p.Length
      modifies this, p
      ensures Agrees(LitDec(input, old(D()), prob, matched, mb), r, D())
    {
      hide Step, DecOk, Shl, TreeDec, MatchedDec, LitNode;
      LitStart();
      var mi: nat := 1;
      ghost var k: nat := 8;
      if matched {
        mi, k :- DecodeMatched(prob, mb);
      }
      mi :- DecodePlain(prob, mi, k);
      r := Ok(mi - 256);
    }
  }

  lemma DistSplit(s: seq<Byte>, d: Dec, len: nat)
    requires DecOk(d) && BASE_SIZE <= |d.probs|
    ensures Pow2(6) == 64
    ensures var o := BitTree(s, d, PosSlotAt(len), 6);
            DistDec(s, d, len) == match o case Halt(why) => Halt(why) case Got(slot, e) => SlotDec(s, e, slot)
  {
    hide BitTree, SlotDec, DecOk;
    PowSix();
  }

  lemma MatchedEnd(s: seq<Byte>, d: Dec, base: nat, mb: nat, m: nat)
    requires DecOk(d) && LitNode(0, m) && base + LIT_SIZE <= |d.probs|
    ensures MatchedDec(s, d, base, mb, 0, m) == LitRest(s, d, base, 0, m)
  {}

  /** The rest of a literal once the match byte no longer matters. */
  ghost function LitRest(s: seq<Byte>, d: Dec, base: nat, k: nat, m: nat): Outcome<nat>
    requires DecOk(d) && LitNode(k, m) && base + LIT_SIZE <= |d.probs|
  {
    LitTree(base, k, m, |d.probs|);
    TreeDec(s, d, base, k, m)
  }

  lemma LitEnd(k: nat, m: nat)
    requires LitNode(k, m)
    ensures m < 256 <==> k > 0
    ensures k == 0 ==> 256 <= m < 512
  {
    if k > 0 { LitStep(k, m, false); }
  }

  /** x, then the bits of `rest` from bit j up, are the bits of `all`. */
  ghost predicate Joined(all: Outcome<nat>, rest: Outcome<nat>, x: nat, j: nat) {
    match rest
    case Halt(why) => all == Halt(why)
    case Got(y, e) => all.Got? && all.dec == e && all.value == x + Shl(y, j)
  }

  lemma JoinedStart(all: Outcome<nat>)
    ensures Joined(all, all, 0, 0)
  {}

  lemma JoinedLast(all: Outcome<nat>, d: Dec, x: nat, j: nat)
    requires Joined(all, Got(0, d), x, j)
    ensures all == Got(x, d)
  {
    ShlZero(j);
  }

  lemma JoinedHalt(all: Outcome<nat>, why: Why, x: nat, j: nat)
    requires Joined(all, Halt(why), x, j)
    ensures all == Halt(why)
  {}

  lemma RevDecNone(s: seq<Byte>, d: Dec, base: int, m: nat)
    requires DecOk(d) && m >= 1 && base + m >= 0 && TreeFits(base, 0, m, |d.probs|)
    ensures RevDec(s, d, base, 0, m) == Got(0, d)
  {}

  lemma JoinedStep(all: Outcome<nat>, rest: Outcome<nat>, rest': Outcome<nat>, x: nat, j: nat, b: bool)
    requires Joined(all, rest, x, j)
    requires rest == if rest'.Got? then Got(Bit01(b) + 2 * rest'.value, rest'.dec) else rest'
    ensures Joined(all, rest', if b then x + Pow2(j) else x, j + 1)
  {
    if rest'.Got? {
      ShlAdd(Bit01(b), 2 * rest'.value, j);
      ShlDouble(rest'.value, j);
      ShlOfOne(j);
      ShlZero(j);
    }
  }

  lemma {:induction false} ShlAligned(a: nat, n: nat)
    ensures Shl(a, n) >= 0 && Aligned(Shl(a, n), n)
  {
    if n > 0 { ShlAligned(a, n - 1); }
  }

  lemma ShiftFour(a: nat)
    ensures Aligned(a * 16, 4)
  {
    assert Aligned(a * 2, 1) && Aligned(a * 4, 2);
    assert a * 8 / 2 == a * 4 && Aligned(a * 8, 3);
    assert a * 16 / 2 == a * 8;
  }

  /** A C conversion to int32_t. */
  function ToInt32(x: int): int {
    var u := x % U32;
    if u >= 0x8000_0000 then u - U32 else u
  }

  /** What a packet left behind, against what it should. */
  ghost predicate Played(a: After, r: Res<bool>, cs: CState, hist: seq<Byte>, before: seq<Byte>) {
    match a
    case Next(c, h) => r == Ok(false) && cs == c && hist == h
    case End => r == Ok(true) && hist == before
    case Stop(why, h) => r == Fail(why) && hist == h
  }

  ghost function AfterOut(a: After, hist: seq<Byte>): seq<Byte> {
    match a
    case Next(_, h) => h
    case End => hist
    case Stop(_, h) => h
  }

  /** What the end of process_bit1 decodes: a match when the state is below 4, else a repeat. */
  ghost function CopyingDec(s: seq<Byte>, d: Dec, st: nat, ps: nat, which: nat): Outcome<Packet>
    requires DecOk(d) && BASE_SIZE <= |d.probs| && ps < 16 && which < 4
  {
    if st < 4 then MatchDec(s, d, ps) else RepDec(s, d, ps, which)
  }

  /** The rest of a copying packet, once the older distances have been rotated. */
  ghost function CopyAfter(cs: CState, hist: seq<Byte>, p: Packet, dict: nat, dst: nat): After
    requires |hist| < dst
  {
    match p
    case Match(len, dist) =>
      if dist + 1 == U32 then End
      else if dist + 1 > dict || dist + 1 > |hist| then Stop(Corrupt, hist)
      else CopyOut(cs.(state := cs.state + 7, rep0 := dist + 1), hist, len + 2, dst)
    case Rep(_, len) =>
      if 1 <= cs.rep0 <= |hist| then CopyOut(cs, hist, len + 2, dst) else Stop(OutOfBuffer, hist)
    case _ => End
  }

  /** The distances once a match has moved the older ones along, before the new one is read. */
  ghost function Shifted(cs: CState): CState {
    CState(if cs.state < NUM_LIT_STATES then 0 else 3, cs.rep0, cs.rep0, cs.rep1, cs.rep2)
  }

  /** A one-byte repeat, once the state has moved. */
  ghost function OneOut(cs: CState, hist: seq<Byte>): After {
    if 1 <= cs.rep0 <= |hist| then Next(cs, hist + [Back(hist, cs.rep0)]) else Stop(OutOfBuffer, hist)
  }

  /** Decoding a packet and playing it... */
  ghost function Applied(o: Outcome<Packet>, cs: CState, hist: seq<Byte>, dict: nat, dst: nat): Outcome<After>
    requires |hist| < dst
  {
    match o
    case Halt(why) => Halt(why)
    case Got(p, e) => Got(Apply(cs, hist, p, dict, dst), e)
  }

  /** ... and the same for the end of process_bit1. */
  ghost function Copied(o: Outcome<Packet>, cs: CState, hist: seq<Byte>, dict: nat, dst: nat): Outcome<After>
    requires |hist| < dst
  {
    match o
    case Halt(why) => Halt(why)
    case Got(p, e) => Got(CopyAfter(cs, hist, p, dict, dst), e)
  }

  lemma AppliedMatch(o: Outcome<Packet>, cs: CState, hist: seq<Byte>, dict: nat, dst: nat)
    requires |hist| < dst && (o.Got? ==> o.value.Match? && PacketOk(o.value))
    ensures Applied(o, cs, hist, dict, dst) == Copied(o, Shifted(cs), hist, dict, dst)
  {}

  lemma AppliedRep(o: Outcome<Packet>, w: nat, cs: CState, hist: seq<Byte>, dict: nat, dst: nat)
    requires |hist| < dst && w < 4 && (o.Got? ==> o.value.Rep? && o.value.which == w)
    ensures Applied(o, cs, hist, dict, dst) == Copied(o, NextReps(cs, Rep(w, 0)), hist, dict, dst)
    ensures NextReps(cs, Rep(w, 0)).state >= 8
  {}

  lemma RepKinds(s: seq<Byte>, d: Dec, st: nat, ps: nat)
    requires DecOk(d) && BASE_SIZE <= |d.probs| && st < NUM_STATES && ps < 16
    ensures var o := RepSelDec(s, d, st, ps);
            RepKindDec(s, d, st, ps) ==
            match o
            case Halt(why) => Halt(why)
            case Got(w, e) => if w == SHORT then Got(ShortRep, e) else RepDec(s, e, ps, w)
  {}

  lemma CopyingRep(s: seq<Byte>, d: Dec, st: nat, ps: nat, w: nat)
    requires DecOk(d) && BASE_SIZE <= |d.probs| && ps < 16 && w < 4 && st >= 4
    ensures CopyingDec(s, d, st, ps, w) == RepDec(s, d, ps, w)
  {}

  lemma AppliedOne(e: Dec, cs: CState, hist: seq<Byte>, dict: nat, dst: nat)
    requires |hist| < dst
    ensures Applied(Got(ShortRep, e), cs, hist, dict, dst) == Got(OneOut(NextReps(cs, ShortRep), hist), e)
  {}

  lemma LitApplied(o: Outcome<Byte>, cs: CState, hist: seq<Byte>, dict: nat, dst: nat)
    requires |hist| < dst
    ensures Applied(LitPacket(o), cs, hist, dict, dst) ==
            match o
            case Halt(why) => Halt(why)
            case Got(b, e) => Got(Next(cs.(state := LitState(cs.state)), hist + [b]), e)
  {}

  lemma HaltApplied(why: Why, cs: CState, hist: seq<Byte>, dict: nat, dst: nat)
    requires |hist| < dst
    ensures Applied(Halt(why), cs, hist, dict, dst) == Halt(why)
  {}

  ghost function LitPacket(o: Outcome<Byte>): Outcome<Packet> {
    match o
    case Halt(why) => Halt(why)
    case Got(b, e) => Got(Lit(b), e)
  }

  /** Whichever distance a repeat picks lies in the dictionary, and in the output unless there is none. */
  lemma RepeatReach(cs: CState, hist: seq<Byte>, dict: nat, p: Packet)
    requires StateOk(cs, hist, dict) && (p.ShortRep? || (p.Rep? && p.which < 4))
    ensures var r := NextReps(cs, p).rep0; 1 <= r <= dict && (r <= |hist| || r == 1)
  {}

  lemma AtLeastBase(pr: Props)
    ensures NumProbs(pr) >= BASE_SIZE
  {}

  lemma CopyOutCut(cs: CState, hist: seq<Byte>, len: nat, dst: nat, before: seq<Byte>)
    requires 1 <= cs.rep0 <= |hist| < dst
    ensures var n := Least(len, dst - |hist|);
            var h, a := Copy(hist, cs.rep0, n), CopyOut(cs, hist, len, dst);
            && AfterOut(a, hist) == h && Played(a, if n < len then Fail(Corrupt) else Ok(false), cs, h, before)
  {}

  lemma PlayedEnd(cs: CState, hist: seq<Byte>)
    ensures Played(End, Ok(true), cs, hist, hist)
  {}

  lemma PlayedStop(why: Why, cs: CState, hist: seq<Byte>)
    ensures Played(Stop(why, hist), Fail(why), cs, hist, hist)
  {}

  /** The decoder, the writer in linear mode, and struct cstate. */
  class Machine {
    const rc: Decoder
    const out: array<Byte>
    const pr: Props
    const dict: nat
    const dst: nat
    var bufferPos: nat
    var previousByte: Byte
    var state: nat
    var rep0: nat
    var rep1: nat
    var rep2: nat
    var rep3: nat

    constructor (rc: Decoder, out: array<Byte>, pr: Props, dict: nat, dst: nat)
      ensures this.rc == rc && this.out == out && this.pr == pr && this.dict == dict && this.dst == dst
      ensures bufferPos == 0 && previousByte == 0 && Cs() == Start()
    {
      this.rc, this.out, this.pr, this.dict, this.dst := rc, out, pr, dict, dst;
      bufferPos, previousByte := 0, 0;
      state, rep0, rep1, rep2, rep3 := 0, 1, 1, 1, 1;
    }

    ghost function Cs(): CState
      reads this
    {
      CState(state, rep0, rep1, rep2, rep3)
    }

    /** The output so far. */
    ghost function H(): seq<Byte>
      reads this, out
      requires bufferPos <= out.Length
    {
      out[..bufferPos]
    }

    /** The window part: positions fit an int32_t, and previous_byte is the last byte. */
    ghost predicate Writing()
      reads this, out
    {
      && bufferPos <= out.Length <= 0x8000_0000 && 1 <= dict < U32
      && previousByte == if bufferPos == 0 then 0 else out[bufferPos - 1]
    }

    ghost predicate Apart()
      reads this
    {
      && (out as object) != rc.p && (out as object) != rc && (out as object) != this
      && (rc as object) != this && (rc.p as object) != this && (rc.p as object) != rc
    }

    ghost predicate Valid()
      reads this, rc, rc.p, out
    {
      && Apart() && Writing() && PropsOk(pr)
      && rc.Valid() && rc.p.Length == NumProbs(pr)
      && StateOk(Cs(), H(), dict)
    }

    /** The caller's buffer holds what a packet leaves. */
    ghost predicate Room(x: Outcome<After>, h: seq<Byte>) {
      x.Got? ==> |AfterOut(x.value, h)| <= out.Length
    }

    /** Where x says things should stand is where they do: a halt leaves the output h alone, and a
        packet leaves the registers, the distances and the window as it should. */
    ghost predicate Leaves(x: Outcome<After>, h: seq<Byte>, r: Res<bool>)
      reads this, rc, rc.p, out
    {
      && Writing()
      && match x
         case Halt(why) => r == Fail(why) && H() == h
         case Got(a, e) => rc.D() == e && Played(a, r, Cs(), H(), h)
    }

    lemma NextLeaves(h: seq<Byte>)
      requires Writing()
      ensures Leaves(Got(Next(Cs(), H()), rc.D()), h, Ok(false))
    {}

    lemma HaltLeaves(why: Why)
      requires Writing()
      ensures Leaves(Halt(why), H(), Fail(why))
    {}

    /** peek_old_byte without flush. */
    method PeekOldByte(offs0: nat) returns (r: Res<Byte>)
      requires Writing() && offs0 >= 1
      requires Wrapped(offs0, dict) <= bufferPos || Wrapped(offs0, dict) == 1
      ensures if Wrapped(offs0, dict) <= bufferPos then r == Ok(Back(H(), Wrapped(offs0, dict))) else r == Fail(OutOfBuffer)
    {
      var offs := offs0;
      while offs > dict
        invariant offs >= 1 && Wrapped(offs, dict) == Wrapped(offs0, dict)
        decreases offs
      {
        offs := offs - dict;
      }
      var pos := ToInt32(bufferPos - offs);
      if pos < 0 {
        return Fail(OutOfBuffer);
      }
      r := Ok(out[pos]);
    }

    /** write_byte without flush. */
    method WriteByte(b: Byte)
      requires Writing() && bufferPos < out.Length
      modifies this`bufferPos, this`previousByte, out
      ensures Writing() && H() == old(H()) + [b] && Cs() == old(Cs())
    {
      out[bufferPos] := b;
      previousByte := b;
      bufferPos := bufferPos + 1;
    }

    /** copy_byte. */
    method CopyByte(offs: nat) returns (r: Res<()>)
      requires Writing() && 1 <= offs <= dict && (offs <= bufferPos || offs == 1)
      requires offs <= bufferPos ==> bufferPos < out.Length
      modifies this`bufferPos, this`previousByte, out
      ensures Writing() && Cs() == old(Cs())
      ensures if offs <= old(bufferPos) then r == Ok(()) && H() == old(H()) + [Back(old(H()), offs)]
              else r == Fail(OutOfBuffer) && H() == old(H())
    {
      var b :- PeekOldByte(offs);
      WriteByte(b);
      r := Ok(());
    }

    /** copy_bytes: what is left of len once the output is full. */
    method CopyBytes(offs: nat, len0: nat) returns (r: Res<nat>)
      requires Writing() && 1 <= offs <= dict && (offs <= bufferPos || offs == 1) && len0 >= 1 && bufferPos < dst
      requires offs <= bufferPos ==> |Copy(H(), offs, Least(len0, dst - bufferPos))| <= out.Length
      modifies this`bufferPos, this`previousByte, out
      ensures Writing() && Cs() == old(Cs())
      ensures if offs <= old(bufferPos) then
                var n := Least(len0, dst - old(bufferPos));
                r == Ok(len0 - n) && H() == Copy(old(H()), offs, n)
              else r == Fail(OutOfBuffer) && H() == old(H())
    {
      hide Copy;
      var len: nat := len0;
      ghost var start := bufferPos;
      ghost var h := H();
      if offs <= start { CopyNone(h, offs); }
      var more := true;
      while more
        invariant Writing() && Cs() == old(Cs()) && len <= len0
        invariant more ==> len > 0 && bufferPos < dst
        invariant offs <= start ==> bufferPos == start + (len0 - len) <= dst && H() == Copy(h, offs, len0 - len)
        invariant offs > start ==> bufferPos == start && H() == h && len == len0 && more
        invariant !more ==> len == 0 || bufferPos >= dst
        decreases len, more
      {
        if offs <= start { CopyMore(h, offs, len0 - len); }
        var _ :- CopyByte(offs);
        len := len - 1;
        more := len != 0 && bufferPos < dst;
      }
      r := Ok(len);
    }

    /** What copying leaves: done, more packets to come, or corrupt when the output is full too early. */
    method FinishCopy(len: nat) returns (r: Res<bool>)
      requires Writing() && 1 <= rep0 <= dict && (rep0 <= bufferPos || rep0 == 1) && bufferPos < dst
      requires rep0 <= bufferPos ==> |AfterOut(CopyOut(Cs(), H(), len + 2, dst), H())| <= out.Length
      modifies this`bufferPos, this`previousByte, out
      ensures Writing() && Cs() == old(Cs())
      ensures if rep0 <= old(bufferPos) then Played(CopyOut(Cs(), old(H()), len + 2, dst), r, Cs(), H(), old(H()))
              else r == Fail(OutOfBuffer) && H() == old(H())
    {
      hide Copy, CopyOut, Played, AfterOut;
      if rep0 <= bufferPos { CopyOutCut(Cs(), H(), len + 2, dst, H()); }
      var left :- CopyBytes(rep0, len + 2);
      if left != 0 {
        return Fail(Corrupt);
      }
      r := Ok(false);
    }

    /** The tests of process_bit1 that tell which repeat it is, with the rotation of the distances.
        For a one-byte repeat only the state changes. */
    method SelectRepeat(ps: nat) returns (r: Res<nat>)
      requires Apart() && rc.Valid() && BASE_SIZE <= rc.p.Length && state < NUM_STATES && ps < 16
      modifies rc, rc.p, this`state, this`rep0, this`rep1, this`rep2, this`rep3
      ensures Agrees(RepSelDec(rc.input, old(rc.D()), old(state), ps), r, rc.D())
      ensures r.Ok? ==> r.value <= SHORT && Cs() == NextReps(old(Cs()), if r.value == SHORT then ShortRep else Rep(r.value, 0))
    {
      hide Step, DecOk;
      var which: nat := 0;
      var b :- rc.RcGetBit(IS_REP_G0 + state);
      if !b {
        var long :- rc.RcGetBit(IS_REP_0_LONG + state * 16 + ps);
        if !long {
          state := if state < NUM_LIT_STATES then 9 else 11;
          return Ok(SHORT);
        }
      } else {
        var distance: nat;
        var b1 :- rc.RcGetBit(IS_REP_G1 + state);
        if !b1 {
          which, distance := 1, rep1;
        } else {
          var b2 :- rc.RcGetBit(IS_REP_G2 + state);
          if !b2 {
            which, distance := 2, rep2;
          } else {
            which, distance := 3, rep3;
            rep3 := rep2;
          }
          rep2 := rep1;
        }
        rep1 := rep0;
        rep0 := distance;
      }
      state := if state < NUM_LIT_STATES then 8 else 11;
      r := Ok(which);
    }

    /** The end of process_bit1: length, distance when the state says a match, and the copy. */
    method DecodeCopy(coder: nat, ps: nat, ghost which: nat) returns (r: Res<bool>)
      requires Apart() && Writing() && rc.Valid() && BASE_SIZE <= rc.p.Length && ps < 16 && bufferPos < dst && which < 4
      requires coder == if state < 4 then LEN_CODER else REP_LEN_CODER
      requires 1 <= rep0 <= dict && (rep0 <= bufferPos || rep0 == 1)
      requires Room(Copied(CopyingDec(rc.input, rc.D(), state, ps, which), Cs(), H(), dict, dst), H())
      modifies this, rc, rc.p, out
      ensures Leaves(Copied(CopyingDec(rc.input, old(rc.D()), old(state), ps, which), old(Cs()), old(H()), dict, dst), old(H()), r)
    {
      hide Step, DecOk, LenDec, DistDec, Copy, CopyOut, Played;
      var len :- rc.DecodeLength(coder, ps);
      if state < 4 {
        state := state + NUM_LIT_STATES;
        var dist :- rc.DecodeDistance(len);
        rep0 := (dist + 1) % U32;
        if rep0 == 0 {
          PlayedEnd(Cs(), H());
          return Ok(true);
        }
        if rep0 > dict || rep0 > bufferPos {
          PlayedStop(Corrupt, Cs(), H());
          return Fail(Corrupt);
        }
      } else if rep0 > bufferPos {
        PlayedStop(OutOfBuffer, Cs(), H());
      }
      r := FinishCopy(len);
    }

    /** process_bit1, after the bit that selected it. The result says whether the end marker was read. */
    method ProcessBit1(ps: nat) returns (r: Res<bool>)
      requires Valid() && ps < 16 && bufferPos < dst
      requires Room(Applied(CopyDec(rc.input, rc.D(), state, ps), Cs(), H(), dict, dst), H())
      modifies this, rc, rc.p, out
      ensures Leaves(Applied(CopyDec(rc.input, old(rc.D()), old(state), ps), old(Cs()), old(H()), dict, dst), old(H()), r)
    {
      hide Step, DecOk, MatchDec, RepKindDec, Room, Leaves, StateOk, Apply, NumProbs;
      AtLeastBase(pr);
      StateSmall(Cs(), H(), dict);
      var isRep := rc.RcGetBit(IS_REP + state);
      if isRep.Fail? {
        HaltLeaves(isRep.why);
        return Fail(isRep.why);
      }
      if !isRep.value {
        r := ProcessMatch(ps);
      } else {
        r := ProcessRepeat(ps);
      }
    }

    /** The match of process_bit1: the distances move along, and a new one is read. */
    method ProcessMatch(ps: nat) returns (r: Res<bool>)
      requires Valid() && ps < 16 && bufferPos < dst && rc.p.Length >= BASE_SIZE
      requires Room(Applied(MatchDec(rc.input, rc.D(), ps), Cs(), H(), dict, dst), H())
      modifies this, rc, rc.p, out
      ensures Leaves(Applied(MatchDec(rc.input, old(rc.D()), ps), old(Cs()), old(H()), dict, dst), old(H()), r)
    {
      hide Step, DecOk, MatchDec, Room, Leaves, Applied, Copied, NumProbs;
      AppliedMatch(MatchDec(rc.input, rc.D(), ps), Cs(), H(), dict, dst);
      rep3 := rep2;
      rep2 := rep1;
      rep1 := rep0;
      state := if state < NUM_LIT_STATES then 0 else 3;
      r := DecodeCopy(LEN_CODER, ps, 0);
    }

    /** The one-byte repeat. */
    method CopyOne() returns (r: Res<bool>)
      requires Writing() && 1 <= rep0 <= dict && (rep0 <= bufferPos || rep0 == 1)
      requires Room(Got(OneOut(Cs(), H()), rc.D()), H())
      modifies this`bufferPos, this`previousByte, out
      ensures Leaves(Got(OneOut(old(Cs()), old(H())), rc.D()), old(H()), r)
    {
      var _ :- CopyByte(rep0);
      r := Ok(false);
    }

    /** The repeats of process_bit1. */
    method ProcessRepeat(ps: nat) returns (r: Res<bool>)
      requires Valid() && ps < 16 && bufferPos < dst && rc.p.Length >= BASE_SIZE
      requires Room(Applied(RepKindDec(rc.input, rc.D(), state, ps), Cs(), H(), dict, dst), H())
      modifies this, rc, rc.p, out
      ensures Leaves(Applied(RepKindDec(rc.input, old(rc.D()), old(state), ps), old(Cs()), old(H()), dict, dst), old(H()), r)
    {
      hide Step, DecOk, RepDec, RepSelDec, RepKindDec, CopyingDec, Room, Leaves, NumProbs, NextReps, StateOk, OneOut, Copied, Applied, Apply;
      ghost var c, h := Cs(), H();
      StateSmall(c, h, dict);
      ghost var d := rc.D();
      ghost var o := RepSelDec(rc.input, d, state, ps);
      RepKinds(rc.input, d, state, ps);
      var w := SelectRepeat(ps);
      if w.Fail? {
        HaltApplied(w.why, c, h, dict, dst);
        HaltLeaves(w.why);
        return Fail(w.why);
      }
      if w.value == SHORT {
        RepeatReach(c, h, dict, ShortRep);
        AppliedOne(o.dec, c, h, dict, dst);
        r := CopyOne();
        return;
      }
      RepeatReach(c, h, dict, Rep(w.value, 0));
      AppliedRep(RepDec(rc.input, o.dec, ps, o.value), o.value, c, h, dict, dst);
      CopyingRep(rc.input, o.dec, state, ps, o.value);
      r := DecodeCopy(REP_LEN_CODER, ps, w.value);
    }

    /** The entry process_bit0 computes from the position and the previous byte. */
    method LiteralEntry() returns (prob: nat)
      requires Writing() && PropsOk(pr) && LitFits(pr, Ctx(Cs(), H()), NumProbs(pr))
      ensures prob == LitEntry(pr, Ctx(Cs(), H())) && prob + LIT_SIZE <= NumProbs(pr)
    {
      hide And, Shl, Shr, Pow2, LitEntry, LitContext, LiteralAt, LitFits, NumProbs;
      LitProb(pr, Ctx(Cs(), H()));
      LowMask(bufferPos, pr.lp);
      ShlNat(And(bufferPos, Pow2(pr.lp) - 1), pr.lc);
      prob := LITERAL + LIT_SIZE * (Shl(And(bufferPos, Pow2(pr.lp) - 1), pr.lc) + Shr(previousByte, 8 - pr.lc));
    }

    /** The state after a literal, and its byte. */
    method FinishLiteral(b: Byte)
      requires Writing() && bufferPos < out.Length
      modifies this`state, this`bufferPos, this`previousByte, out
      ensures Writing() && H() == old(H()) + [b] && Cs() == old(Cs()).(state := LitState(old(state)))
    {
      if state < 4 {
        state := 0;
      } else if state < 10 {
        state := state - 3;
      } else {
        state := state - 6;
      }
      WriteByte(b);
    }

    /** process_bit0, after the bit that selected it. */
    method ProcessBit0() returns (r: Res<bool>)
      requires Valid() && bufferPos < dst && LitFits(pr, Ctx(Cs(), H()), NumProbs(pr))
      requires LitDec(rc.input, rc.D(), LitEntry(pr, Ctx(Cs(), H())), state >= NUM_LIT_STATES, Ctx(Cs(), H()).mb).Got? ==>
                 bufferPos < out.Length
      modifies this, rc, rc.p, out
      ensures var c, h := old(Cs()), old(H());
              var o := LitDec(rc.input, old(rc.D()), LitEntry(pr, Ctx(c, h)), c.state >= NUM_LIT_STATES, Ctx(c, h).mb);
              Leaves(Applied(LitPacket(o), c, h, dict, dst), h, r)
    {
      hide Step, DecOk, LitDec, Leaves, Applied, LitPacket, LitEntry, LitFits, NumProbs, StateOk, Wrapped, LitState, PropsOk;
      ghost var c, h := Cs(), H();
      AfterCopy(c, h, dict);
      var prob := LiteralEntry();
      var matchByte: nat := 0;
      if state >= NUM_LIT_STATES {
        var b := PeekOldByte(rep0);
        matchByte := b.value;
      }
      ghost var mb: nat := Ctx(c, h).mb;
      UnmatchedByte(rc.input, rc.D(), prob, matchByte, mb);
      LitApplied(LitDec(rc.input, rc.D(), prob, state >= NUM_LIT_STATES, mb), c, h, dict, dst);
      var mi := rc.DecodeLiteral(prob, state >= NUM_LIT_STATES, matchByte);
      if mi.Fail? {
        HaltLeaves(mi.why);
        return Fail(mi.why);
      }
      FinishLiteral(mi.value % 256);
      NextLeaves(h);
      r := Ok(false);
    }

    /** One turn of the main loop. */
    method DecodePacket() returns (r: Res<bool>)
      requires Valid() && bufferPos < dst
      requires Room(Applied(PacketDec(rc.input, rc.D(), pr, state, Ctx(Cs(), H())), Cs(), H(), dict, dst), H())
      modifies this, rc, rc.p, out
      ensures var o := PacketDec(rc.input, old(rc.D()), pr, old(state), Ctx(old(Cs()), old(H())));
              Leaves(Applied(o, old(Cs()), old(H()), dict, dst), old(H()), r)
    {
      hide Step, DecOk, LitDec, CopyDec, And, LitContext, LiteralAt, Pow2, Room, Leaves, Applied, NumProbs, StateOk;
      PosStateBound(pr, bufferPos);
      LitBase(pr, Ctx(Cs(), H()), NumProbs(pr));
      AtLeastBase(pr);
      StateSmall(Cs(), H(), dict);
      ghost var c, h := Cs(), H();
      var ps := And(bufferPos, Pow2(pr.pb) - 1);
      var isMatch := rc.RcGetBit(IS_MATCH + state * 16 + ps);
      if isMatch.Fail? {
        HaltApplied(isMatch.why, c, h, dict, dst);
        HaltLeaves(isMatch.why);
        return Fail(isMatch.why);
      }
      if !isMatch.value {
        LitRoom(LitDec(rc.input, rc.D(), LitEntry(pr, Ctx(c, h)), state >= NUM_LIT_STATES, Ctx(c, h).mb), c, h);
        r := ProcessBit0();
      } else {
        r := ProcessBit1(ps);
      }
    }

    lemma LitRoom(o: Outcome<Byte>, c: CState, h: seq<Byte>)
      requires |h| < dst && Room(Applied(LitPacket(o), c, h, dict, dst), h)
      ensures o.Got? ==> |h| < out.Length
    {}

    /** The main loop. */
    method Loop() returns (r: Res<bool>)
      requires Valid() && bufferPos == 0
      requires |Run(rc.input, rc.D(), pr, dict, dst, Cs(), H()).out| <= out.Length
      modifies this, rc, rc.p, out
      ensures Writing()
      ensures match Run(rc.input, old(rc.D()), pr, dict, dst, old(Cs()), old(H()))
              case Done(o, marker, d) => r == Ok(marker) && H() == o && rc.D() == d
              case Stopped(why, o) => r == Fail(why) && H() == o
    {
      hide PacketDec, Apply, StateOk, NumProbs;
      ghost var goal := Run(rc.input, rc.D(), pr, dict, dst, Cs(), H());
      while bufferPos < dst
        invariant Valid() && bufferPos <= dst && Run(rc.input, rc.D(), pr, dict, dst, Cs(), H()) == goal
        decreases dst - bufferPos
      {
        ghost var c, h := Cs(), H();
        StateSmall(c, h, dict);
        ghost var o := PacketDec(rc.input, rc.D(), pr, state, Ctx(c, h));
        if o.Got? {
          ApplyKeeps(c, h, o.value, dict, dst);
          ghost var a := Apply(c, h, o.value, dict, dst);
          if a.Next? { RunOutput(rc.input, o.dec, pr, dict, dst, a.cs, a.hist); }
        }
        var ended :- DecodePacket();
        if ended {
          return Ok(true);
        }
      }
      r := Ok(false);
    }
  }

  ghost predicate LitFits(pr: Props, c: Context, n: nat) {
    PropsOk(pr) && LitContext(pr, c.pos, c.prev) >= 0 && LiteralAt(LitContext(pr, c.pos, c.prev)) + LIT_SIZE <= n
  }

  ghost function LitEntry(pr: Props, c: Context): nat
    requires LitFits(pr, c, NumProbs(pr))
  {
    LiteralAt(LitContext(pr, c.pos, c.prev))
  }

  lemma LitProb(pr: Props, c: Context)
    requires LitFits(pr, c, NumProbs(pr))
    ensures LITERAL + LIT_SIZE * (Shl(And(c.pos, Pow2(pr.lp) - 1), pr.lc) + Shr(c.prev, 8 - pr.lc)) == LitEntry(pr, c)
    ensures LitEntry(pr, c) + LIT_SIZE <= NumProbs(pr)
  {
    hide And, Shl, Shr, Pow2, NumProbs;
  }

  lemma AfterCopy(cs: CState, hist: seq<Byte>, dict: nat)
    requires StateOk(cs, hist, dict)
    ensures cs.state < NUM_STATES
    ensures cs.state >= NUM_LIT_STATES ==> 1 <= cs.rep0 <= dict && cs.rep0 <= |hist|
  {}

  /** After a literal, the byte at distance rep0 plays no part. */
  lemma UnmatchedByte(s: seq<Byte>, d: Dec, base: nat, mb: nat, mb': nat)
    requires DecOk(d) && base + LIT_SIZE <= |d.probs|
    ensures LitDec(s, d, base, false, mb) == LitDec(s, d, base, false, mb')
  {
    hide TreeDec, MatchedDec, Step, DecOk, Shl, Pow2;
  }

  /** unlzma with the whole input in memory: what it does is what Decoded says, for every input, as
      long as the caller's buffer holds the bytes the input decodes to. */
  method Unlzma(input: seq<Byte>, out: array<Byte>) returns (r: Res<bool>, size: nat)
    requires |Decoded(input).out| <= out.Length <= 0x8000_0000
    modifies out
    ensures size <= out.Length && out[..size] == Decoded(input).out
    ensures match Decoded(input)
            case Done(_, marker, _) => r == Ok(marker)
            case Stopped(why, _) => r == Fail(why)
  {
    hide Run, NumProbs;
    size := 0;
    var ptr := 0;
    var header: seq<Byte> := [];
    while ptr < 13
      invariant ptr <= 13 && ptr <= |input| && header == input[..ptr]
    {
      if ptr >= |input| {
        return Fail(UnexpectedEof), 0;
      }
      header := header + [input[ptr]];
      ptr := ptr + 1;
    }
    if header[0] >= 225 {
      return Fail(BadHeader), 0;
    }
    var pr := SplitProps(header[0]);
    var dict := LittleEndian(header[1..5]);
    var dst := LittleEndian(header[5..13]);
    if dict == 0 {
      dict := 1;
    }
    assert header[1..5] == input[1..5] && header[5..13] == input[5..13];
    DictBound(input[1..5]);
    var rc := new Decoder(input[13..], BASE_SIZE + LIT_SIZE * Pow2(pr.lc + pr.lp));
    assert rc.p.Length == NumProbs(pr) by { TableSize(pr); }
    var m := new Machine(rc, out, pr, dict, dst);
    var q := rc.RcInitCode();
    if q.Fail? {
      return Fail(q.why), 0;
    }
    r := m.Loop();
    size := m.bufferPos;
  }

  lemma TableSize(pr: Props)
    ensures NumProbs(pr) == BASE_SIZE + LIT_SIZE * Pow2(pr.lc + pr.lp)
  {}

  lemma DictBound(b: seq<Byte>)
    requires |b| == 4
    ensures LittleEndian(b) < U32
  {
    var b0: int, b1: int, b2: int, b3: int := b[0], b[1], b[2], b[3];
    assert LittleEndian(b[1..][1..][1..]) == b3;
    assert LittleEndian(b[1..][1..]) == b2 + 256 * b3;
    assert LittleEndian(b[1..]) == b1 + 256 * (b2 + 256 * b3);
  }

  /** The two loops that take the first header byte apart. */
  method SplitProps(pos: nat) returns (pr: Props)
    requires pos < 225
    ensures pr == PropsOf(pos) && PropsOk(pr)
  {
    hide PropsOf;
    var mi: nat, lc: nat := 0, pos;
    while lc >= 9
      invariant pos == 9 * mi + lc
    {
      mi := mi + 1;
      lc := lc - 9;
    }
    var pb: nat, lp: nat := 0, mi;
    while lp >= 5
      invariant mi == 5 * pb + lp
    {
      pb := pb + 1;
      lp := lp - 5;
    }
    pr := Props(lc, lp, pb);
    PropsRoundTrip(pr);
  }

  /** decompress, as do_decompress calls it: the last four bytes of the image are its length and are
      not decoded. */
  method Decompress(image: seq<Byte>, out: array<Byte>) returns (r: Res<bool>, size: nat)
    requires |Decoded(Body(image)).out| <= out.Length <= 0x8000_0000
    modifies out
    ensures size <= out.Length && out[..size] == Decoded(Body(image)).out
    ensures match Decoded(Body(image))
            case Done(_, marker, _) => r == Ok(marker)
            case Stopped(why, _) => r == Fail(why)
  {
    r, size := Unlzma(Body(image), out);
  }

  function Body(image: seq<Byte>): seq<Byte> {
    if |image| < 4 then [] else image[..|image| - 4]
  }

  /** A distance, reduced by whole dictionaries until it is at most one. */
  function Wrapped(offs: nat, dict: nat): (r: nat)
    requires offs >= 1 && dict >= 1
    ensures 1 <= r <= dict && (offs <= dict ==> r == offs)
  {
    if offs > dict then Wrapped(offs - dict, dict) else offs
  }

  function Least(a: int, b: int): (n: nat)
    requires a >= 0 && b >= 0
  {
    if a < b then a else b
  }
}