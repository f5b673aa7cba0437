/** The symbols of the LZMA stream: how each is decoded bit by bit, which bits code it, and that
    decoding those bits gives the symbol back. */
module LzmaCodec {
  import opened Bits
  import opened RangeCoder
  import opened LzmaFormat

  function Bit01(b: bool): nat { if b then 1 else 0 }

  ghost predicate Ready(d: Dec, n: nat) {
    DecOk(d) && |d.probs| == n
  }

  function M(i: int, b: bool): Sym
    requires i >= 0
  {
    Sym(Model(i), b)
  }

  // ---------- replaying one bit, then the rest ----------

  lemma ReplayFirst(s: seq<Byte>, d: Dec, q: Query, b: bool, rest: seq<Sym>)
    requires DecOk(d) && Asks(q, d.probs) && AskAll(rest, |d.probs|)
    ensures AskAll([Sym(q, b)] + rest, |d.probs|)
    ensures Replay(s, d, [Sym(q, b)] + rest).Got? ==>
              var r := Step(s, d, q);
              r.Got? && r.value == b && Replay(s, r.dec, rest) == Replay(s, d, [Sym(q, b)] + rest)
  {
    assert ([Sym(q, b)] + rest)[1..] == rest;
  }

  // ---------- bit trees ----------

  /** The probabilities of m's subtree, k levels deep, lie in the table. */
  predicate TreeFits(base: int, k: nat, m: nat, n: nat) {
    k > 0 ==> base + Shl(m + 1, k - 1) <= n
  }

  /** rc_bit_tree_decode from node m, k levels deep: the leaf's node number. */
  function TreeDec(s: seq<Byte>, d: Dec, base: nat, k: nat, m: nat): (r: Outcome<nat>)
    requires DecOk(d) && m >= 1 && TreeFits(base, k, m, |d.probs|)
    ensures r.Got? ==> Ready(r.dec, |d.probs|) && Shl(m, k) <= r.value < Shl(m + 1, k)
    ensures r.Halt? ==> r.why == UnexpectedEof
    decreases k
  {
    if k == 0 then Got(m, d)
    else
      TreeNode(m, k);
      var (b, d1) :- Step(s, d, Model(base + m));
      TreeDec(s, d1, base, k - 1, 2 * m + Bit01(b))
  }

  lemma {:induction false} ShlMono(a: int, b: int, k: nat)
    requires a <= b
    ensures Shl(a, k) <= Shl(b, k)
    ensures a >= 0 ==> a <= Shl(a, k)
  {
    if k > 0 { ShlMono(a, b, k - 1); }
  }

  lemma {:induction false} ShlDouble(a: int, k: nat)
    ensures Shl(2 * a, k) == Shl(a, k + 1)
  {
    if k > 0 { ShlDouble(a, k - 1); }
  }

  /** Nodes below m lie in its subtree. */
  lemma TreeNode(m: nat, k: nat)
    requires k > 0
    ensures m + 1 <= Shl(m + 1, k - 1)
    ensures k > 1 ==> Shl(2 * m + 1, k - 2) <= Shl(2 * m + 2, k - 2) == Shl(m + 1, k - 1)
    ensures Shl(2 * m, k - 1) == Shl(m, k) && Shl(2 * m + 2, k - 1) == Shl(m + 1, k)
    ensures Shl(2 * m, k - 1) <= Shl(2 * m + 1, k - 1) <= Shl(2 * m + 2, k - 1)
  {
    ShlDouble(m, k - 1);
    ShlDouble(m + 1, k - 1);
    ShlMono(m + 1, m + 1, k - 1);
    if k > 1 {
      ShlDouble(m + 1, k - 2);
      ShlMono(2 * m + 1, 2 * m + 2, k - 2);
    }
    ShlMono(2 * m, 2 * m + 1, k - 1);
    ShlMono(2 * m + 1, 2 * m + 2, k - 1);
  }

  /** The bits that lead from node m to the leaf x places into its subtree, high bit first. */
  function TreeTrace(base: nat, k: nat, m: nat, x: int): seq<Sym> {
    if k == 0 then []
    else
      var b := x >= Pow2(k - 1);
      [M(base + m, b)] + TreeTrace(base, k - 1, 2 * m + Bit01(b), if b then x - Pow2(k - 1) else x)
  }

  lemma {:induction false} TreeAsks(base: nat, k: nat, m: nat, x: int, n: nat)
    requires m >= 1 && TreeFits(base, k, m, n)
    ensures AskAll(TreeTrace(base, k, m, x), n)
    decreases k
  {
    if k > 0 {
      TreeNode(m, k);
      var b := x >= Pow2(k - 1);
      TreeAsks(base, k - 1, 2 * m + Bit01(b), if b then x - Pow2(k - 1) else x, n);
    }
  }

  lemma TreeDecStep(s: seq<Byte>, d: Dec, base: nat, k: nat, m: nat)
    requires DecOk(d) && m >= 1 && TreeFits(base, k, m, |d.probs|) && k > 0
    ensures m + 1 <= Shl(m + 1, k - 1)
    ensures var r := Step(s, d, Model(base + m));
            r.Got? ==>
              && TreeFits(base, k - 1, 2 * m + Bit01(r.value), |d.probs|)
              && TreeDec(s, d, base, k, m) == TreeDec(s, r.dec, base, k - 1, 2 * m + Bit01(r.value))
  {
    hide Step, DecOk;
    TreeNode(m, k);
  }

  /** Which half of m's subtree leaf x is in, and its place there. */
  function Half(k: nat, x: nat): (r: (bool, nat))
    requires k > 0
  {
    if x >= Pow2(k - 1) then (true, x - Pow2(k - 1)) else (false, x)
  }

  lemma TreeTraceStep(base: nat, k: nat, m: nat, x: nat)
    requires k > 0
    ensures var (b, y) := Half(k, x);
            && TreeTrace(base, k, m, x) == [Sym(Model(base + m), b)] + TreeTrace(base, k - 1, 2 * m + Bit01(b), y)
            && x == y + (if b then Pow2(k - 1) else 0)
            && (x < Pow2(k) ==> y < Pow2(k - 1))
  {}

  lemma TreeNone(s: seq<Byte>, d: Dec, base: nat, m: nat, x: nat)
    requires DecOk(d) && m >= 1 && TreeFits(base, 0, m, |d.probs|) && x < Pow2(0)
    ensures TreeTrace(base, 0, m, x) == [] && TreeDec(s, d, base, 0, m) == Got(Shl(m, 0) + x, d)
  {}

  lemma {:induction false} TreeRoundTrip(s: seq<Byte>, d: Dec, base: nat, k: nat, m: nat, x: nat)
    requires DecOk(d) && m >= 1 && TreeFits(base, k, m, |d.probs|) && x < Pow2(k)
    requires AskAll(TreeTrace(base, k, m, x), |d.probs|)
    requires Replay(s, d, TreeTrace(base, k, m, x)).Got?
    ensures TreeDec(s, d, base, k, m) == Got(Shl(m, k) + x, Replay(s, d, TreeTrace(base, k, m, x)).dec)
    decreases k
  {
    hide Replay, Step, DecOk, AskAll, Pow2, Shl, TreeDec, TreeTrace, Half;
    if k == 0 {
      TreeNone(s, d, base, m, x);
      ReplayNone(s, d);
    } else {
      TreeDecStep(s, d, base, k, m);
      TreeTraceStep(base, k, m, x);
      var (b, y) := Half(k, x);
      TreeNode(m, k);
      TreeAsks(base, k - 1, 2 * m + Bit01(b), y, |d.probs|);
      ReplayFirst(s, d, Model(base + m), b, TreeTrace(base, k - 1, 2 * m + Bit01(b), y));
      TreeRoundTrip(s, Step(s, d, Model(base + m)).dec, base, k - 1, 2 * m + Bit01(b), y);
      ShlAdd(2 * m, 1, k - 1);
    }
  }

  lemma {:induction false} ShlOfOne(k: nat)
    ensures Shl(1, k) == Pow2(k) && Shl(2, k) == 2 * Pow2(k)
  {
    if k > 0 { ShlOfOne(k - 1); }
  }

  /** rc_bit_tree_decode. */
  function BitTree(s: seq<Byte>, d: Dec, base: nat, k: nat): (r: Outcome<nat>)
    requires DecOk(d) && k >= 1 && base + Pow2(k) <= |d.probs|
    ensures r.Got? ==> Ready(r.dec, |d.probs|) && r.value < Pow2(k)
    ensures r.Halt? ==> r.why == UnexpectedEof
  {
    ShlOfOne(k - 1);
    ShlOfOne(k);
    var (leaf, d1) :- TreeDec(s, d, base, k, 1);
    Got(leaf - Pow2(k), d1)
  }

  function BitTreeTrace(base: nat, k: nat, x: int): seq<Sym> {
    TreeTrace(base, k, 1, x)
  }

  lemma BitTreeAsks(base: nat, k: nat, x: int, n: nat)
    requires k >= 1 && base + Pow2(k) <= n
    ensures AskAll(BitTreeTrace(base, k, x), n)
  {
    ShlOfOne(k - 1);
    TreeAsks(base, k, 1, x, n);
  }

  /** Decoding the bits of a symbol from a bit tree gives the symbol. */
  lemma BitTreeRoundTrip(s: seq<Byte>, d: Dec, base: nat, k: nat, x: nat)
    requires DecOk(d) && k >= 1 && base + Pow2(k) <= |d.probs| && x < Pow2(k)
    requires AskAll(BitTreeTrace(base, k, x), |d.probs|)
    requires Replay(s, d, BitTreeTrace(base, k, x)).Got?
    ensures BitTree(s, d, base, k) == Got(x, Replay(s, d, BitTreeTrace(base, k, x)).dec)
  {
    ShlOfOne(k - 1);
    ShlOfOne(k);
    TreeRoundTrip(s, d, base, k, 1, x);
  }

  // ---------- reverse bit trees ----------

  /** The low-bit-first tree of process_bit1: bit j of the result is the j-th bit decoded. */
  function RevDec(s: seq<Byte>, d: Dec, base: int, k: nat, m: nat): (r: Outcome<nat>)
    requires DecOk(d) && m >= 1 && base + m >= 0 && TreeFits(base, k, m, |d.probs|)
    ensures r.Got? ==> Ready(r.dec, |d.probs|) && r.value < Pow2(k)
    ensures r.Halt? ==> r.why == UnexpectedEof
    decreases k
  {
    if k == 0 then Got(0, d)
    else
      TreeNode(m, k);
      var (b, d1) :- Step(s, d, Model(base + m));
      var (x, d2) :- RevDec(s, d1, base, k - 1, 2 * m + Bit01(b));
      Got(Bit01(b) + 2 * x, d2)
  }

  function RevTrace(base: int, k: nat, m: nat, x: nat): seq<Sym>
    requires base + m >= 0
  {
    if k == 0 then []
    else
      var b := x % 2 == 1;
      [M(base + m, b)] + RevTrace(base, k - 1, 2 * m + Bit01(b), x / 2)
  }

  lemma {:induction false} RevAsks(base: int, k: nat, m: nat, x: nat, n: nat)
    requires m >= 1 && base + m >= 0 && TreeFits(base, k, m, n)
    ensures AskAll(RevTrace(base, k, m, x), n)
    decreases k
  {
    if k > 0 {
      TreeNode(m, k);
      RevAsks(base, k - 1, 2 * m + Bit01(x % 2 == 1), x / 2, n);
    }
  }

  lemma RevDecStep(s: seq<Byte>, d: Dec, base: int, k: nat, m: nat)
    requires DecOk(d) && m >= 1 && base + m >= 0 && TreeFits(base, k, m, |d.probs|) && k > 0
    ensures m + 1 <= Shl(m + 1, k - 1)
    ensures Step(s, d, Model(base + m)).Halt? ==> RevDec(s, d, base, k, m) == Halt(Step(s, d, Model(base + m)).why)
    ensures var r := Step(s, d, Model(base + m));
            r.Got? ==>
              && TreeFits(base, k - 1, 2 * m + Bit01(r.value), |d.probs|)
              && var t := RevDec(s, r.dec, base, k - 1, 2 * m + Bit01(r.value));
                 RevDec(s, d, base, k, m) == if t.Got? then Got(Bit01(r.value) + 2 * t.value, t.dec) else t
  {
    hide Step, DecOk;
    TreeNode(m, k);
  }

  lemma RevTraceStep(base: int, k: nat, m: nat, x: nat)
    requires base + m >= 0 && k > 0
    ensures RevTrace(base, k, m, x) ==
            [Sym(Model(base + m), x % 2 == 1)] + RevTrace(base, k - 1, 2 * m + Bit01(x % 2 == 1), x / 2)
    ensures Pow2(k) == 2 * Pow2(k - 1)
  {}

  lemma ReplayNone(s: seq<Byte>, d: Dec)
    requires DecOk(d)
    ensures Replay(s, d, []) == Got((), d)
  {}

  lemma RevNone(s: seq<Byte>, d: Dec, base: int, m: nat, x: nat)
    requires DecOk(d) && m >= 1 && base + m >= 0 && TreeFits(base, 0, m, |d.probs|) && x < Pow2(0)
    ensures RevTrace(base, 0, m, x) == [] && RevDec(s, d, base, 0, m) == Got(x, d)
  {}

  lemma {:induction false} RevRoundTrip(s: seq<Byte>, d: Dec, base: int, k: nat, m: nat, x: nat)
    requires DecOk(d) && m >= 1 && base + m >= 0 && TreeFits(base, k, m, |d.probs|) && x < Pow2(k)
    requires AskAll(RevTrace(base, k, m, x), |d.probs|)
    requires Replay(s, d, RevTrace(base, k, m, x)).Got?
    ensures RevDec(s, d, base, k, m) == Got(x, Replay(s, d, RevTrace(base, k, m, x)).dec)
    decreases k
  {
    hide Replay, Step, DecOk, AskAll, Shl, Pow2, RevDec, RevTrace;
    if k == 0 {
      RevNone(s, d, base, m, x);
      ReplayNone(s, d);
    } else {
      RevDecStep(s, d, base, k, m);
      RevTraceStep(base, k, m, x);
      var b := x % 2 == 1;
      TreeNode(m, k);
      RevAsks(base, k - 1, 2 * m + Bit01(b), x / 2, |d.probs|);
      ReplayFirst(s, d, Model(base + m), b, RevTrace(base, k - 1, 2 * m + Bit01(b), x / 2));
      RevRoundTrip(s, Step(s, d, Model(base + m)).dec, base, k - 1, 2 * m + Bit01(b), x / 2);
    }
  }

  // ---------- direct bits ----------

  /** k even bits, high bit first, below the bits already read. */
  function DirectDec(s: seq<Byte>, d: Dec, k: nat, acc: nat): (r: Outcome<nat>)
    requires DecOk(d)
    ensures r.Got? ==> Ready(r.dec, |d.probs|) && Shl(acc, k) <= r.value < Shl(acc + 1, k)
    ensures r.Halt? ==> r.why == UnexpectedEof
    decreases k
  {
    if k == 0 then Got(acc, d)
    else
      TreeNode(acc, k);
      var (b, d1) :- Step(s, d, Direct);
      DirectDec(s, d1, k - 1, 2 * acc + Bit01(b))
  }

  function DirectTrace(k: nat, x: int): seq<Sym> {
    if k == 0 then []
    else
      var b := x >= Pow2(k - 1);
      [Sym(Direct, b)] + DirectTrace(k - 1, if b then x - Pow2(k - 1) else x)
  }

  lemma {:induction false} DirectAsks(k: nat, x: int, n: nat)
    ensures AskAll(DirectTrace(k, x), n)
  {
    if k > 0 { DirectAsks(k - 1, if x >= Pow2(k - 1) then x - Pow2(k - 1) else x, n); }
  }

  lemma DirectDecStep(s: seq<Byte>, d: Dec, k: nat, acc: nat)
    requires DecOk(d) && k > 0
    ensures var r := Step(s, d, Direct);
            r.Got? ==> DirectDec(s, d, k, acc) == DirectDec(s, r.dec, k - 1, 2 * acc + Bit01(r.value))
  {
    hide Step, DecOk;
    TreeNode(acc, k);
  }

  lemma DirectTraceStep(k: nat, x: nat)
    requires k > 0
    ensures var (b, y) := Half(k, x);
            && DirectTrace(k, x) == [Sym(Direct, b)] + DirectTrace(k - 1, y)
            && x == y + (if b then Pow2(k - 1) else 0)
            && (x < Pow2(k) ==> y < Pow2(k - 1))
  {}

  lemma DirectNone(s: seq<Byte>, d: Dec, acc: nat, x: nat)
    requires DecOk(d) && x < Pow2(0)
    ensures DirectTrace(0, x) == [] && DirectDec(s, d, 0, acc) == Got(Shl(acc, 0) + x, d)
  {}

  lemma {:induction false} DirectRoundTrip(s: seq<Byte>, d: Dec, k: nat, acc: nat, x: nat)
    requires DecOk(d) && x < Pow2(k) && AskAll(DirectTrace(k, x), |d.probs|)
    requires Replay(s, d, DirectTrace(k, x)).Got?
    ensures DirectDec(s, d, k, acc) == Got(Shl(acc, k) + x, Replay(s, d, DirectTrace(k, x)).dec)
    decreases k
  {
    hide Replay, Step, DecOk, AskAll, Pow2, Shl, DirectDec, DirectTrace, Half;
    if k == 0 {
      DirectNone(s, d, acc, x);
      ReplayNone(s, d);
    } else {
      DirectDecStep(s, d, k, acc);
      DirectTraceStep(k, x);
      var (b, y) := Half(k, x);
      TreeNode(acc, k);
      DirectAsks(k - 1, y, |d.probs|);
      ReplayFirst(s, d, Direct, b, DirectTrace(k - 1, y));
      DirectRoundTrip(s, Step(s, d, Direct).dec, k - 1, 2 * acc + Bit01(b), y);
      ShlAdd(2 * acc, 1, k - 1);
    }
  }

  // ---------- lengths ----------

  /** A match length less two, from the length coder at `coder`. */
  function LenDec(s: seq<Byte>, d: Dec, coder: nat, ps: nat): (r: Outcome<nat>)
    requires DecOk(d) && ps < 16 && coder + NUM_LEN_PROBS <= |d.probs|
    ensures r.Got? ==> Ready(r.dec, |d.probs|) && r.value < 272
    ensures r.Halt? ==> r.why == UnexpectedEof
  {
    var (b, d1) :- Step(s, d, Model(coder + LEN_CHOICE));
    if !b then
      BitTree(s, d1, LenLowAt(coder, ps), 3)
    else
      var (b2, d2) :- Step(s, d1, Model(coder + LEN_CHOICE_2));
      if !b2 then
        var (x, d3) :- BitTree(s, d2, LenMidAt(coder, ps), 3);
        Got(x + 8, d3)
      else
        var (x, d3) :- BitTree(s, d2, coder + LEN_HIGH, 8);
        Got(x + 16, d3)
  }

  function LenTrace(coder: nat, ps: nat, len: nat): seq<Sym> {
    if len < 8 then [M(coder + LEN_CHOICE, false)] + BitTreeTrace(LenLowAt(coder, ps), 3, len)
    else if len < 16 then
      [M(coder + LEN_CHOICE, true)] + ([M(coder + LEN_CHOICE_2, false)] + BitTreeTrace(LenMidAt(coder, ps), 3, len - 8))
    else
      [M(coder + LEN_CHOICE, true)] + ([M(coder + LEN_CHOICE_2, true)] + BitTreeTrace(coder + LEN_HIGH, 8, len - 16))
  }

  lemma LenAsks(coder: nat, ps: nat, len: nat, n: nat)
    requires ps < 16 && coder + NUM_LEN_PROBS <= n
    ensures AskAll(LenTrace(coder, ps, len), n)
  {
    BitTreeAsks(LenLowAt(coder, ps), 3, len, n);
    BitTreeAsks(LenMidAt(coder, ps), 3, len - 8, n);
    BitTreeAsks(coder + LEN_HIGH, 8, len - 16, n);
  }

  lemma LenRoundTrip(s: seq<Byte>, d: Dec, coder: nat, ps: nat, len: nat)
    requires DecOk(d) && ps < 16 && coder + NUM_LEN_PROBS <= |d.probs| && len < 272
    requires AskAll(LenTrace(coder, ps, len), |d.probs|)
    requires Replay(s, d, LenTrace(coder, ps, len)).Got?
    ensures LenDec(s, d, coder, ps) == Got(len, Replay(s, d, LenTrace(coder, ps, len)).dec)
  {
    hide Replay, Step, BitTreeTrace, BitTree;
    var n := |d.probs|;
    var c1 := Model(coder + LEN_CHOICE);
    if len < 8 {
      BitTreeAsks(LenLowAt(coder, ps), 3, len, n);
      ReplayFirst(s, d, c1, false, BitTreeTrace(LenLowAt(coder, ps), 3, len));
      BitTreeRoundTrip(s, Step(s, d, c1).dec, LenLowAt(coder, ps), 3, len);
    } else {
      var b := len >= 16;
      var base := if b then coder + LEN_HIGH else LenMidAt(coder, ps);
      var k, x := if b then 8 else 3, if b then len - 16 else len - 8;
      var c2 := Model(coder + LEN_CHOICE_2);
      var tr := BitTreeTrace(base, k, x);
      BitTreeAsks(base, k, x, n);
      ReplayFirst(s, d, c1, true, [Sym(c2, b)] + tr);
      ReplayFirst(s, Step(s, d, c1).dec, c2, b, tr);
      BitTreeRoundTrip(s, Step(s, Step(s, d, c1).dec, c2).dec, base, k, x);
    }
  }

  // ---------- distances ----------

  lemma TreeFitsFrom1(base: int, k: nat, n: nat)
    requires k > 0 ==> base + Pow2(k) <= n
    ensures TreeFits(base, k, 1, n)
  {
    if k > 0 { ShlOfOne(k - 1); }
  }

  lemma SpecFits(slot: nat, n: nat)
    requires 4 <= slot < 14 && BASE_SIZE <= n
    ensures TreeFits(SpecAt(slot), SlotBits(slot), 1, n) && SpecAt(slot) + 1 >= 0
  {
    SpecRange(slot);
    TreeFitsFrom1(SpecAt(slot), SlotBits(slot), n);
  }

  lemma FarBound(slot: nat, hi: nat, x: nat)
    requires END_POS_MODEL <= slot < 64 && hi < Shl(SlotLead(slot) + 1, SlotBits(slot) - 4) && x < Pow2(4)
    ensures hi * 16 + x < U32
  {
    var k := SlotBits(slot);
    PowSix();
    ShlSixteen(SlotLead(slot) + 1, k);
    ShlMono(SlotLead(slot) + 1, 4, k);
    ShlDouble(2, k);
    ShlDouble(1, k + 1);
    ShlOfOne(k + 2);
    Pow2Monotone(k + 2, 32);
    Pow2At32();
  }

  lemma ShlSixteen(a: int, k: nat)
    requires k >= 4
    ensures Shl(a, k) == 16 * Shl(a, k - 4)
  {
    assert Shl(a, k) == 2 * Shl(a, k - 1) && Shl(a, k - 1) == 2 * Shl(a, k - 2);
    assert Shl(a, k - 2) == 2 * Shl(a, k - 3) && Shl(a, k - 3) == 2 * Shl(a, k - 4);
  }

  /** A match distance less one, from the bits below its slot's two leading ones... */
  function SlotDec(s: seq<Byte>, d: Dec, slot: nat): (r: Outcome<nat>)
    requires DecOk(d) && BASE_SIZE <= |d.probs| && slot < 64
    ensures r.Got? ==> Ready(r.dec, |d.probs|) && r.value < U32
    ensures r.Halt? ==> r.why == UnexpectedEof
  {
    if slot < START_POS_MODEL then Got(slot, d)
    else if slot < END_POS_MODEL then
      SpecFits(slot, |d.probs|);
      var (x, d2) :- RevDec(s, d, SpecAt(slot), SlotBits(slot), 1);
      DistanceJoins(slot, x);
      Got(SlotBase(slot) + x, d2)
    else
      TreeFitsFrom1(ALIGN, 4, |d.probs|);
      var (hi, d2) :- DirectDec(s, d, SlotBits(slot) - 4, SlotLead(slot));
      var (x, d3) :- RevDec(s, d2, ALIGN, 4, 1);
      FarBound(slot, hi, x);
      Got(hi * 16 + x, d3)
  }

  /** ... and from the slot on. */
  function DistDec(s: seq<Byte>, d: Dec, len: nat): (r: Outcome<nat>)
    requires DecOk(d) && BASE_SIZE <= |d.probs|
    ensures r.Got? ==> Ready(r.dec, |d.probs|) && r.value < U32
    ensures r.Halt? ==> r.why == UnexpectedEof
  {
    PowSix();
    var (slot, d1) :- BitTree(s, d, PosSlotAt(len), 6);
    SlotDec(s, d1, slot)
  }

  function DistTail(slot: nat, x: nat): seq<Sym>
    requires slot < 64
  {
    if slot < START_POS_MODEL then []
    else if slot < END_POS_MODEL then
      SpecFits(slot, BASE_SIZE);
      RevTrace(SpecAt(slot), SlotBits(slot), 1, x)
    else DirectTrace(SlotBits(slot) - 4, x / 16) + RevTrace(ALIGN, 4, 1, x % 16)
  }

  function Extra(dist: nat): (r: nat)
    requires dist < U32
  {
    DistanceSplits(dist);
    if dist < 4 then 0 else dist - SlotBase(SlotOf(dist))
  }

  function DistTrace(len: nat, dist: nat): seq<Sym>
    requires dist < U32
  {
    DistanceSplits(dist);
    BitTreeTrace(PosSlotAt(len), 6, SlotOf(dist)) + DistTail(SlotOf(dist), Extra(dist))
  }

  lemma DistTailAsks(slot: nat, x: nat, n: nat)
    requires slot < 64 && BASE_SIZE <= n
    ensures AskAll(DistTail(slot, x), n)
  {
    if slot < START_POS_MODEL {
    } else if slot < END_POS_MODEL {
      SpecFits(slot, n);
      RevAsks(SpecAt(slot), SlotBits(slot), 1, x, n);
    } else {
      TreeFitsFrom1(ALIGN, 4, n);
      DirectAsks(SlotBits(slot) - 4, x / 16, n);
      RevAsks(ALIGN, 4, 1, x % 16, n);
    }
  }

  lemma DistAsks(len: nat, dist: nat, n: nat)
    requires dist < U32 && BASE_SIZE <= n
    ensures AskAll(DistTrace(len, dist), n)
  {
    DistanceSplits(dist);
    BitTreeAsks(PosSlotAt(len), 6, SlotOf(dist), n);
    DistTailAsks(SlotOf(dist), Extra(dist), n);
  }

  lemma Sixteenths(lead: nat, k: nat, x: nat)
    requires k >= 4 && x < Pow2(k)
    ensures x / 16 < Pow2(k - 4) && x % 16 < Pow2(4)
    ensures Shl(lead, k) == 16 * Shl(lead, k - 4)
  {
    assert Pow2(k) == 2 * Pow2(k - 1) && Pow2(k - 1) == 2 * Pow2(k - 2);
    assert Pow2(k - 2) == 2 * Pow2(k - 3) && Pow2(k - 3) == 2 * Pow2(k - 4);
    ShlSixteen(lead, k);
  }

  /** Replaying a concatenation when the whole replays. */
  lemma ReplayParts(s: seq<Byte>, d: Dec, a: seq<Sym>, b: seq<Sym>)
    requires DecOk(d) && AskAll(a, |d.probs|) && AskAll(b, |d.probs|)
    ensures AskAll(a + b, |d.probs|)
    ensures Replay(s, d, a + b).Got? ==>
              && Replay(s, d, a).Got?
              && Replay(s, d, a + b) == Replay(s, Replay(s, d, a).dec, b)
  {
    ReplayConcat(s, d, a, b);
  }

  lemma DistRoundTrip(s: seq<Byte>, d: Dec, len: nat, dist: nat)
    requires DecOk(d) && BASE_SIZE <= |d.probs| && dist < U32
    requires AskAll(DistTrace(len, dist), |d.probs|)
    requires Replay(s, d, DistTrace(len, dist)).Got?
    ensures DistDec(s, d, len) == Got(dist, Replay(s, d, DistTrace(len, dist)).dec)
  {
    hide Replay, BitTreeTrace, BitTree, RevDec, RevTrace, DirectDec, DirectTrace, SlotOf, Shl, Pow2;
    var n := |d.probs|;
    var slot, x := SlotOf(dist), Extra(dist);
    DistanceSplits(dist);
    SlotSmall(dist);
    PowSix();
    BitTreeAsks(PosSlotAt(len), 6, slot, n);
    DistTailAsks(slot, x, n);
    ReplayParts(s, d, BitTreeTrace(PosSlotAt(len), 6, slot), DistTail(slot, x));
    BitTreeRoundTrip(s, d, PosSlotAt(len), 6, slot);
    var d1 := Replay(s, d, BitTreeTrace(PosSlotAt(len), 6, slot)).dec;
    if slot < START_POS_MODEL {
      ReplayNone(s, d1);
    } else if slot < END_POS_MODEL {
      SpecFits(slot, n);
      RevRoundTrip(s, d1, SpecAt(slot), SlotBits(slot), 1, x);
    } else {
      var k := SlotBits(slot);
      Sixteenths(SlotLead(slot), k, x);
      PowSix();
      TreeFitsFrom1(ALIGN, 4, n);
      DirectAsks(k - 4, x / 16, n);
      RevAsks(ALIGN, 4, 1, x % 16, n);
      ReplayParts(s, d1, DirectTrace(k - 4, x / 16), RevTrace(ALIGN, 4, 1, x % 16));
      DirectRoundTrip(s, d1, k - 4, SlotLead(slot), x / 16);
      RevRoundTrip(s, Replay(s, d1, DirectTrace(k - 4, x / 16)).dec, ALIGN, 4, 1, x % 16);
    }
  }

  lemma PowSix()
    ensures Pow2(6) == 64 && Pow2(4) == 16
  {}

  lemma SlotSmall(dist: nat)
    requires dist < U32
    ensures SlotOf(dist) < START_POS_MODEL <==> dist < 4
    ensures dist < 4 ==> SlotOf(dist) == dist
  {
    if dist >= 4 { LeadDeep(dist); }
  }

  // ---------- literals ----------

  /** The literal subtree still open at node m, k levels deep, stays in the literal's 768 entries. */
  predicate LitNode(k: nat, m: nat) {
    m >= 1 && Shl(m, k) >= 256 && Shl(m + 1, k) <= 512
  }

  lemma LitStep(k: nat, m: nat, b: bool)
    requires LitNode(k, m) && k > 0
    ensures m < 256 && LitNode(k - 1, 2 * m + Bit01(b))
  {
    TreeNode(m, k);
    ShlMono(m + 1, m + 1, k - 1);
  }

  lemma LitTree(base: nat, k: nat, m: nat, n: nat)
    requires LitNode(k, m) && base + LIT_SIZE <= n
    ensures TreeFits(base, k, m, n)
  {}

  /** The bit of the match byte, shifted up once more, that the next literal bit is compared with. */
  function MatchBit(mb: nat): bool {
    2 * mb / 256 % 2 == 1
  }

  /** The literal bits while they agree with the byte at distance rep0, then an ordinary tree. */
  function MatchedDec(s: seq<Byte>, d: Dec, base: nat, mb: nat, k: nat, m: nat): (r: Outcome<nat>)
    requires DecOk(d) && LitNode(k, m) && base + LIT_SIZE <= |d.probs|
    ensures r.Got? ==> Ready(r.dec, |d.probs|) && Shl(m, k) <= r.value < Shl(m + 1, k)
    ensures r.Halt? ==> r.why == UnexpectedEof
    decreases k
  {
    if k == 0 then Got(m, d)
    else
      var hi := MatchBit(mb);
      LitStep(k, m, hi);
      TreeNode(m, k);
      var (b, d1) :- Step(s, d, Model(base + 256 + 256 * Bit01(hi) + m));
      LitStep(k, m, b);
      LitTree(base, k - 1, 2 * m + Bit01(b), |d.probs|);
      if b != hi then TreeDec(s, d1, base, k - 1, 2 * m + Bit01(b))
      else MatchedDec(s, d1, base, 2 * mb, k - 1, 2 * m + Bit01(b))
  }

  function MatchedTrace(base: nat, mb: nat, k: nat, m: nat, x: nat): seq<Sym>
    decreases k
  {
    if k == 0 then []
    else
      var hi := MatchBit(mb);
      var (b, y) := Half(k, x);
      [Sym(Model(base + 256 + 256 * Bit01(hi) + m), b)] +
      if b != hi then TreeTrace(base, k - 1, 2 * m + Bit01(b), y)
      else MatchedTrace(base, 2 * mb, k - 1, 2 * m + Bit01(b), y)
  }

  lemma {:induction false} MatchedAsks(base: nat, mb: nat, k: nat, m: nat, x: nat, n: nat)
    requires LitNode(k, m) && base + LIT_SIZE <= n
    ensures AskAll(MatchedTrace(base, mb, k, m, x), n)
    decreases k
  {
    if k > 0 {
      var (b, y) := Half(k, x);
      LitStep(k, m, b);
      LitTree(base, k - 1, 2 * m + Bit01(b), n);
      TreeAsks(base, k - 1, 2 * m + Bit01(b), y, n);
      MatchedAsks(base, 2 * mb, k - 1, 2 * m + Bit01(b), y, n);
    }
  }

  lemma MatchedDecStep(s: seq<Byte>, d: Dec, base: nat, mb: nat, k: nat, m: nat)
    requires DecOk(d) && LitNode(k, m) && base + LIT_SIZE <= |d.probs| && k > 0
    ensures var hi := MatchBit(mb);
            && m < 256
            && var r := Step(s, d, Model(base + 256 + 256 * Bit01(hi) + m));
            if r.Halt? then MatchedDec(s, d, base, mb, k, m) == Halt(r.why) else
              && LitNode(k - 1, 2 * m + Bit01(r.value)) && TreeFits(base, k - 1, 2 * m + Bit01(r.value), |d.probs|)
              && MatchedDec(s, d, base, mb, k, m) ==
                 if r.value != hi then TreeDec(s, r.dec, base, k - 1, 2 * m + Bit01(r.value))
                 else MatchedDec(s, r.dec, base, 2 * mb, k - 1, 2 * m + Bit01(r.value))
  {
    hide Step, TreeDec, LitNode, TreeFits, Shl, Pow2, DecOk, MatchBit;
    LitStep(k, m, true);
    LitStep(k, m, false);
    LitTree(base, k - 1, 2 * m, |d.probs|);
    LitTree(base, k - 1, 2 * m + 1, |d.probs|);
  }

  lemma HalfBound(k: nat, x: nat)
    requires k > 0
    ensures var (b, y) := Half(k, x);
            x == y + (if b then Pow2(k - 1) else 0) && (x < Pow2(k) ==> y < Pow2(k - 1))
  {}

  lemma MatchedTraceStep(base: nat, mb: nat, k: nat, m: nat, x: nat)
    requires k > 0
    ensures var hi, (b, y) := MatchBit(mb), Half(k, x);
            MatchedTrace(base, mb, k, m, x) ==
            [Sym(Model(base + 256 + 256 * Bit01(hi) + m), b)] +
            if b != hi then TreeTrace(base, k - 1, 2 * m + Bit01(b), y)
            else MatchedTrace(base, 2 * mb, k - 1, 2 * m + Bit01(b), y)
  {}

  lemma MatchedNone(s: seq<Byte>, d: Dec, base: nat, mb: nat, m: nat, x: nat)
    requires DecOk(d) && LitNode(0, m) && base + LIT_SIZE <= |d.probs| && x < Pow2(0)
    ensures MatchedTrace(base, mb, 0, m, x) == [] && MatchedDec(s, d, base, mb, 0, m) == Got(Shl(m, 0) + x, d)
  {}

  lemma LitPositive(k: nat, m: nat)
    requires LitNode(k, m)
    ensures m >= 1
  {}

  lemma {:induction false} MatchedRoundTrip(s: seq<Byte>, d: Dec, base: nat, mb: nat, k: nat, m: nat, x: nat)
    requires DecOk(d) && LitNode(k, m) && base + LIT_SIZE <= |d.probs| && x < Pow2(k)
    requires AskAll(MatchedTrace(base, mb, k, m, x), |d.probs|)
    requires Replay(s, d, MatchedTrace(base, mb, k, m, x)).Got?
    ensures MatchedDec(s, d, base, mb, k, m) == Got(Shl(m, k) + x, Replay(s, d, MatchedTrace(base, mb, k, m, x)).dec)
    decreases k
  {
    hide Replay, Step, DecOk, AskAll, Pow2, Shl, TreeDec, TreeTrace, Half, MatchedDec, MatchedTrace, LitNode, TreeFits, MatchBit;
    if k == 0 {
      MatchedNone(s, d, base, mb, m, x);
      ReplayNone(s, d);
    } else {
      LitPositive(k, m);
      MatchedDecStep(s, d, base, mb, k, m);
      HalfBound(k, x);
      MatchedTraceStep(base, mb, k, m, x);
      var (b, y) := Half(k, x);
      var hi := MatchBit(mb);
      var m' := 2 * m + Bit01(b);
      TreeNode(m, k);
      ShlAdd(2 * m, 1, k - 1);
      var q := Model(base + 256 + 256 * Bit01(hi) + m);
      LitStep(k, m, b);
      LitTree(base, k - 1, m', |d.probs|);
      if b != hi {
        TreeAsks(base, k - 1, m', y, |d.probs|);
        ReplayFirst(s, d, q, b, TreeTrace(base, k - 1, m', y));
        TreeRoundTrip(s, Step(s, d, q).dec, base, k - 1, m', y);
      } else {
        MatchedAsks(base, 2 * mb, k - 1, m', y, |d.probs|);
        ReplayFirst(s, d, q, b, MatchedTrace(base, 2 * mb, k - 1, m', y));
        MatchedRoundTrip(s, Step(s, d, q).dec, base, 2 * mb, k - 1, m', y);
      }
    }
  }

  lemma LitStart()
    ensures LitNode(8, 1) && Shl(1, 8) == 256 && Shl(2, 8) == 512 && Pow2(8) == 256
  {}

  /** A literal byte, from the entries at base; mb is the byte at distance rep0 after a match. */
  function LitDec(s: seq<Byte>, d: Dec, base: nat, matched: bool, mb: nat): (r: Outcome<nat>)
    requires DecOk(d) && base + LIT_SIZE <= |d.probs|
    ensures r.Got? ==> Ready(r.dec, |d.probs|) && r.value < 256
    ensures r.Halt? ==> r.why == UnexpectedEof
  {
    LitStart();
    LitTree(base, 8, 1, |d.probs|);
    var (leaf, d1) :- if matched then MatchedDec(s, d, base, mb, 8, 1) else TreeDec(s, d, base, 8, 1);
    Got(leaf - 256, d1)
  }

  function LitTrace(base: nat, matched: bool, mb: nat, x: nat): seq<Sym> {
    if matched then MatchedTrace(base, mb, 8, 1, x) else TreeTrace(base, 8, 1, x)
  }

  lemma LitAsks(base: nat, matched: bool, mb: nat, x: nat, n: nat)
    requires base + LIT_SIZE <= n
    ensures AskAll(LitTrace(base, matched, mb, x), n)
  {
    LitStart();
    LitTree(base, 8, 1, n);
    MatchedAsks(base, mb, 8, 1, x, n);
    TreeAsks(base, 8, 1, x, n);
  }

  lemma LitRoundTrip(s: seq<Byte>, d: Dec, base: nat, matched: bool, mb: nat, x: nat)
    requires DecOk(d) && base + LIT_SIZE <= |d.probs| && x < 256
    requires AskAll(LitTrace(base, matched, mb, x), |d.probs|)
    requires Replay(s, d, LitTrace(base, matched, mb, x)).Got?
    ensures LitDec(s, d, base, matched, mb) == Got(x, Replay(s, d, LitTrace(base, matched, mb, x)).dec)
  {
    hide Replay, DecOk, AskAll, TreeDec, MatchedDec, TreeTrace, MatchedTrace, Shl, Pow2, LitNode, TreeFits;
    LitStart();
    LitTree(base, 8, 1, |d.probs|);
    if matched { MatchedRoundTrip(s, d, base, mb, 8, 1, x); } else { TreeRoundTrip(s, d, base, 8, 1, x); }
  }
}
