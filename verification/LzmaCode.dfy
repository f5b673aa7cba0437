/** The LZMA code written out packet by packet: which bits code a packet and which model each bit is
    coded under, in terms of the packet and its context alone. */
module LzmaCode {
  import opened Bits
  import opened RangeCoder
  import opened LzmaFormat
  import opened LzmaCodec
  import opened LzmaStream

  /** A bit and the model it is coded under, or an even bit. */
  datatype Coded = Under(p: Prob, bit: bool) | Even(bit: bool)

  predicate Is(y: Sym, c: Coded) {
    match c
    case Under(p, b) => y.q.Model? && (p.Spec? ==> p.slot >= 4) && y.q.i == Address(p) && y.bit == b
    case Even(b) => y == Sym(Direct, b)
  }

  /** The queries and bits of tr are those of code, one for one. */
  ghost predicate Codes(tr: seq<Sym>, code: seq<Coded>) {
    |tr| == |code| && forall i :: 0 <= i < |tr| ==> Is(tr[i], code[i])
  }

  // ---------- the code ----------

  /** The node after i of the k bits of x, high bit first: those i bits below a leading one. */
  function Node(k: nat, x: nat, i: nat): nat
    requires i <= k
  {
    Pow2(i) + Shr(x, k - i)
  }

  /** The node after the i low bits of x, low bit first. */
  function RevNode(x: nat, i: nat): nat {
    if i == 0 then 1 else 2 * RevNode(x, i - 1) + Bit01(Bit(x, i - 1))
  }

  /** The literal's high bits so far are those of the byte at distance rep0. */
  predicate Agrees(b: nat, mb: nat, i: nat)
    requires i <= 8
  {
    Shr(b, 8 - i) == Shr(mb, 8 - i)
  }

  /** Eight bits, high bit first; after a copy under the models set apart for the bit the match byte
      has there, as long as the bits agree with it. */
  function LitCode(context: nat, copied: bool, mb: nat, b: nat): seq<Coded> {
    seq(8, i requires 0 <= i < 8 =>
      var apart := if copied && Agrees(b, mb, i) then (if Bit(mb, 7 - i) then 512 else 256) else 0;
      Under(Literal(context, apart + Node(8, b, i)), Bit(b, 7 - i)))
  }

  /** 0 and three bits, 10 and three bits, or 11 and eight. */
  function LenCode(rep: bool, ps: nat, len: nat): seq<Coded> {
    if len < 8 then
      [Under(Choice(rep, 0), false)] +
      seq(3, i requires 0 <= i < 3 => Under(Low(rep, ps, Node(3, len, i)), Bit(len, 2 - i)))
    else if len < 16 then
      [Under(Choice(rep, 0), true), Under(Choice(rep, 1), false)] +
      seq(3, i requires 0 <= i < 3 => Under(Mid(rep, ps, Node(3, len - 8, i)), Bit(len - 8, 2 - i)))
    else
      [Under(Choice(rep, 0), true), Under(Choice(rep, 1), true)] +
      seq(8, i requires 0 <= i < 8 => Under(High(rep, Node(8, len - 16, i)), Bit(len - 16, 7 - i)))
  }

  /** Six bits of slot; then the n bits of the distance below its two leading ones: low bit first under
      the slot's own models if there are at most five; and if more, all but four of them even and high
      bit first, and the last four low bit first. */
  function DistCode(len: nat, dist: nat): seq<Coded> {
    var slot, l := SlotOf(dist), if len < 3 then len else 3;
    var n := if slot < 4 then 0 else slot / 2 - 1;
    seq(6, i requires 0 <= i < 6 => Under(Slot(l, Node(6, slot, i)), Bit(slot, 5 - i))) +
    if slot < 14 then
      seq(n, i requires 0 <= i < n => Under(Spec(slot, RevNode(dist, i)), Bit(dist, i)))
    else
      seq(n - 4, i requires 0 <= i < n - 4 => Even(Bit(dist, n - 1 - i))) +
      seq(4, i requires 0 <= i < 4 => Under(Align(RevNode(dist, i)), Bit(dist, i)))
  }

  /** 00 for a short repeat, and 01, 10, 110 and 111 for a repeat of the last four distances... */
  function RepCode(st: nat, ps: nat, p: Packet): seq<Coded>
    requires p.ShortRep? || p.Rep?
  {
    if p.ShortRep? || p.which == 0 then [Under(IsRepG(0, st), false), Under(Rep0Long(st, ps), p.Rep?)]
    else if p.which == 1 then [Under(IsRepG(0, st), true), Under(IsRepG(1, st), false)]
    else [Under(IsRepG(0, st), true), Under(IsRepG(1, st), true), Under(IsRepG(2, st), p.which == 3)]
  }

  /** ... after 0 for a literal, 10 for a match, and 11 for those. */
  function KindCode(st: nat, ps: nat, p: Packet): seq<Coded> {
    match p
    case Lit(_) => [Under(IsMatch(st, ps), false)]
    case Match(_, _) => [Under(IsMatch(st, ps), true), Under(IsRep(st), false)]
    case _ => [Under(IsMatch(st, ps), true), Under(IsRep(st), true)] + RepCode(st, ps, p)
  }

  /** A literal's models are chosen by the low lp bits of its position and the high lc bits of the byte
      before it... */
  function ContextOf(pr: Props, pos: nat, prev: nat): nat
    requires PropsOk(pr)
  {
    var low, high := pos % Pow2(pr.lp), prev / Pow2(8 - pr.lc);
    low * Pow2(pr.lc) + high
  }

  /** ... and the others by the low pb bits of the position. */
  function Code(pr: Props, st: nat, c: Context, p: Packet): seq<Coded>
    requires PropsOk(pr)
  {
    var ps := c.pos % Pow2(pr.pb);
    KindCode(st, ps, p) +
    match p
    case Lit(b) => LitCode(ContextOf(pr, c.pos, c.prev), st >= 7, c.mb, b)
    case Match(len, dist) => LenCode(false, ps, len) + DistCode(len, dist)
    case ShortRep => []
    case Rep(_, len) => LenCode(true, ps, len)
  }

  // ---------- bits of a number ----------

  lemma {:induction false} TopBit(x: nat, k: nat)
    requires k >= 1 && x < Pow2(k)
    ensures Bit(x, k - 1) <==> x >= Pow2(k - 1)
    ensures Shr(x, k) == 0
  {
    if k > 1 {
      TopBit(x / 2, k - 1);
    }
  }

  lemma {:induction false} AddHigh(y: nat, w: nat, e: nat)
    ensures Shr(y + Pow2(w + e), w) == Shr(y, w) + Pow2(e)
    ensures e >= 1 ==> Bit(y + Pow2(w + e), w) == Bit(y, w)
    decreases w
  {
    if w == 0 {
      if e >= 1 { assert Pow2(e) == 2 * Pow2(e - 1); }
    } else {
      AddHigh(y / 2, w - 1, e);
      assert (y + Pow2(w + e)) / 2 == y / 2 + Pow2(w - 1 + e);
    }
  }

  lemma {:induction false} ShrBound(y: nat, w: nat, e: nat)
    requires y < Pow2(w + e)
    ensures Shr(y, w) < Pow2(e)
  {
    if w > 0 { ShrBound(y / 2, w - 1, e); }
  }

  // ---------- trees ----------

  /** The i-th bit from node m on, and its node. */
  lemma {:induction false} TreeAt(base: nat, k: nat, m: nat, x: nat, i: nat)
    requires x < Pow2(k) && i < k
    ensures |TreeTrace(base, k, m, x)| == k && Shl(m, i) >= 0
    ensures TreeTrace(base, k, m, x)[i] == Sym(Model(base + Shl(m, i) + Shr(x, k - i)), Bit(x, k - 1 - i))
    decreases k
  {
    TreeTraceStep(base, k, m, x);
    TopBit(x, k);
    ShlNat(m, i);
    var (b, y) := Half(k, x);
    var t := TreeTrace(base, k - 1, 2 * m + Bit01(b), y);
    if i == 0 {
      TreeLength(base, k - 1, 2 * m + Bit01(b), y);
    } else {
      TreeAt(base, k - 1, 2 * m + Bit01(b), y, i - 1);
      Deeper(k, m, x, i);
      assert TreeTrace(base, k, m, x)[i] == t[i - 1];
    }
  }

  lemma {:induction false} TreeLength(base: nat, k: nat, m: nat, x: nat)
    ensures |TreeTrace(base, k, m, x)| == k
  {
    if k > 0 {
      var (b, y) := Half(k, x);
      TreeLength(base, k - 1, 2 * m + Bit01(b), y);
    }
  }

  /** Node and bit i of x are node and bit i - 1 of its half. */
  lemma Deeper(k: nat, m: nat, x: nat, i: nat)
    requires 1 <= i < k && x < Pow2(k)
    ensures var (b, y) := Half(k, x);
            && Shl(2 * m + Bit01(b), i - 1) + Shr(y, k - i) == Shl(m, i) + Shr(x, k - i)
            && Shr(x, k - i) == Shr(y, k - i) + (if b then Pow2(i - 1) else 0)
            && Shr(y, k - i) < Pow2(i - 1)
            && Bit(y, k - 1 - i) == Bit(x, k - 1 - i)
  {
    hide Shl, Shr, Bit, Pow2;
    HalfBound(k, x);
    var (b, y) := Half(k, x);
    ShlDouble(m, i - 1);
    ShlAdd(2 * m, 1, i - 1);
    ShrBound(y, k - i, i - 1);
    AddHigh(y, k - i, i - 1);
    AddHigh(y, k - 1 - i, i);
  }

  lemma {:induction false} DirectAt(k: nat, x: nat, i: nat)
    requires x < Pow2(k) && i < k
    ensures |DirectTrace(k, x)| == k && DirectTrace(k, x)[i] == Sym(Direct, Bit(x, k - 1 - i))
    decreases k
  {
    DirectTraceStep(k, x);
    TopBit(x, k);
    var (b, y) := Half(k, x);
    if i == 0 {
      DirectLength(k - 1, y);
    } else {
      DirectAt(k - 1, y, i - 1);
      Deeper(k, 0, x, i);
      assert DirectTrace(k, x)[i] == DirectTrace(k - 1, y)[i - 1];
    }
  }

  lemma {:induction false} DirectLength(k: nat, x: nat)
    ensures |DirectTrace(k, x)| == k
  {
    if k > 0 { DirectLength(k - 1, Half(k, x).1); }
  }

  function RevNodeFrom(m: nat, x: nat, i: nat): (r: nat)
    ensures m == 1 ==> r == RevNode(x, i)
  {
    if i == 0 then m else 2 * RevNodeFrom(m, x, i - 1) + Bit01(Bit(x, i - 1))
  }

  lemma {:induction false} RevNodeStep(m: nat, x: nat, i: nat)
    ensures RevNodeFrom(2 * m + Bit01(x % 2 == 1), x / 2, i) == RevNodeFrom(m, x, i + 1)
  {
    if i > 0 { RevNodeStep(m, x, i - 1); } else { assert RevNodeFrom(m, x, 1) == 2 * m + Bit01(Bit(x, 0)); }
  }

  lemma {:induction false} RevAt(base: int, k: nat, m: nat, x: nat, i: nat)
    requires base + m >= 0 && i < k
    ensures |RevTrace(base, k, m, x)| == k
    ensures base + RevNodeFrom(m, x, i) >= 0
    ensures RevTrace(base, k, m, x)[i] == Sym(Model(base + RevNodeFrom(m, x, i)), Bit(x, i))
    decreases k
  {
    RevTraceStep(base, k, m, x);
    var m' := 2 * m + Bit01(x % 2 == 1);
    if i == 0 {
      RevLength(base, k - 1, m', x / 2);
    } else {
      RevAt(base, k - 1, m', x / 2, i - 1);
      RevNodeStep(m, x, i - 1);
    }
  }

  lemma {:induction false} RevLength(base: int, k: nat, m: nat, x: nat)
    requires base + m >= 0
    ensures |RevTrace(base, k, m, x)| == k
  {
    if k > 0 { RevLength(base, k - 1, 2 * m + Bit01(x % 2 == 1), x / 2); }
  }

  /** The match byte as the decoder holds it k bits before the end: shifted up, its low k bits being z. */
  function Shifted(k: nat, c: nat, z: nat): nat
    requires k <= 8
  {
    Pow2(8 - k) * (c * Pow2(k) + z)
  }

  /** A matched literal's i-th bit: set apart by the match byte's bit while the bits so far agree. */
  lemma {:induction false} MatchedAt(base: nat, c: nat, z: nat, k: nat, m: nat, x: nat, i: nat)
    requires k <= 8 && x < Pow2(k) && z < Pow2(k) && i < k
    ensures |MatchedTrace(base, Shifted(k, c, z), k, m, x)| == k && Shl(m, i) >= 0
    ensures var apart := if Shr(x, k - i) == Shr(z, k - i) then (if Bit(z, k - 1 - i) then 512 else 256) else 0;
            MatchedTrace(base, Shifted(k, c, z), k, m, x)[i] ==
            Sym(Model(base + apart + Shl(m, i) + Shr(x, k - i)), Bit(x, k - 1 - i))
    decreases k
  {
    hide Pow2, Shl, Shr, Bit, Half, TreeTrace, MatchedTrace, MatchBit, Shifted;
    var mb := Shifted(k, c, z);
    MatchedTraceStep(base, mb, k, m, x);
    NextShifted(k, c, z);
    TopBit(x, k);
    TopBit(z, k);
    TopHalf(k, x);
    TopHalf(k, z);
    ShlNat(m, i);
    var (b, y) := Half(k, x);
    var (hi, w) := Half(k, z);
    var m' := 2 * m + Bit01(b);
    HalfBound(k, x);
    HalfBound(k, z);
    MatchedLength(base, mb, k, m, x);
    if i == 0 {
      ShlNone(m);
    } else {
      Deeper(k, m, x, i);
      Deeper(k, m, z, i);
      if b != hi { TreeAt(base, k - 1, m', y, i - 1); } else { MatchedAt(base, 2 * c + Bit01(b), w, k - 1, m', y, i - 1); }
    }
  }

  lemma ShlNone(m: nat)
    ensures Shl(m, 0) == m
  {}

  lemma TopHalf(k: nat, x: nat)
    requires k > 0
    ensures Half(k, x).0 == (x >= Pow2(k - 1))
  {}

  lemma NextShifted(k: nat, c: nat, z: nat)
    requires 1 <= k <= 8 && z < Pow2(k)
    ensures var (hi, w) := Half(k, z);
            && MatchBit(Shifted(k, c, z)) == hi
            && 2 * Shifted(k, c, z) == Shifted(k - 1, 2 * c + Bit01(hi), w)
  {
    hide MatchBit, Pow2, Half;
    PowParts(k);
    HalfBound(k, z);
    var (hi, w) := Half(k, z);
    ShiftOut(Pow2(8 - k), Pow2(k - 1), c, Bit01(hi), w);
  }

  lemma PowParts(k: nat)
    requires 1 <= k <= 8
    ensures Pow2(8 - k) * Pow2(k - 1) == 128 && Pow2(k) == 2 * Pow2(k - 1) && Pow2(9 - k) == 2 * Pow2(8 - k)
  {
    Pow2Add(8 - k, k - 1);
    assert Pow2(7) == 128;
  }

  lemma ShiftOut(a: nat, b: nat, c: nat, h: nat, w: nat)
    requires a * b == 128 && h < 2 && w < b
    ensures c * (2 * b) + (h * b + w) == (2 * c + h) * b + w
    ensures MatchBit(a * (c * (2 * b) + (h * b + w))) == (h == 1)
    ensures 2 * (a * (c * (2 * b) + (h * b + w))) == (2 * a) * ((2 * c + h) * b + w)
  {
    var q := 2 * c + h;
    Distribute(c, h, b);
    Weighed(a, b, q, w);
    Below(a, w, b);
  }

  lemma Weighed(a: nat, b: nat, q: nat, w: nat)
    requires a * b == 128
    ensures a * (q * b + w) == 128 * q + a * w
    ensures 2 * (a * (q * b + w)) == (2 * a) * (q * b + w)
  {
    assert a * (q * b + w) == a * (q * b) + a * w;
    assert a * (q * b) == q * (a * b);
  }

  lemma Distribute(c: nat, h: nat, b: nat)
    ensures c * (2 * b) + h * b == (2 * c + h) * b
  {}

  lemma Below(a: nat, w: nat, b: nat)
    requires w < b && a * b == 128
    ensures 0 <= a * w < 128
  {
    assert a > 0;
    assert a * b == a * w + a * (b - w);
  }

  lemma {:induction false} MatchedLength(base: nat, mb: nat, k: nat, m: nat, x: nat)
    ensures |MatchedTrace(base, mb, k, m, x)| == k
    decreases k
  {
    if k > 0 {
      var (b, y) := Half(k, x);
      TreeLength(base, k - 1, 2 * m + Bit01(b), y);
      MatchedLength(base, 2 * mb, k - 1, 2 * m + Bit01(b), y);
    }
  }

  // ---------- the packets' bits are their code ----------

  lemma CodesBoth(a: seq<Sym>, x: seq<Coded>, b: seq<Sym>, y: seq<Coded>)
    requires Codes(a, x) && Codes(b, y)
    ensures Codes(a + b, x + y)
  {}

  lemma LitCoded(context: nat, copied: bool, mb: nat, b: nat)
    requires mb < 256 && b < 256
    ensures Codes(LitTrace(LiteralAt(context), copied, mb, b), LitCode(context, copied, mb, b))
  {
    hide TreeTrace, MatchedTrace, Shl, Shr, Bit;
    assert Pow2(8) == 256;
    var base := LiteralAt(context);
    var tr, code := LitTrace(base, copied, mb, b), LitCode(context, copied, mb, b);
    assert Shifted(8, 0, mb) == mb;
    TreeLength(base, 8, 1, b);
    MatchedLength(base, mb, 8, 1, b);
    forall i | 0 <= i < 8 ensures Is(tr[i], code[i]) {
      ShlAdd(1, 0, i);
      if copied { MatchedAt(base, 0, mb, 8, 1, b, i); } else { TreeAt(base, 8, 1, b, i); }
    }
  }

  /** The bits of a bit tree, whatever its probabilities are called. */
  lemma TreeCoded(base: nat, k: nat, x: nat, code: seq<Coded>)
    requires x < Pow2(k) && |code| == k
    requires forall i :: 0 <= i < k ==> Is(Sym(Model(base + Node(k, x, i)), Bit(x, k - 1 - i)), code[i])
    ensures Codes(BitTreeTrace(base, k, x), code)
  {
    hide TreeTrace, Shl, Shr, Bit, Is;
    TreeLength(base, k, 1, x);
    forall i | 0 <= i < k ensures Is(BitTreeTrace(base, k, x)[i], code[i]) {
      ShlAdd(1, 0, i);
      TreeAt(base, k, 1, x, i);
    }
  }

  lemma LenCoded(rep: bool, ps: nat, len: nat)
    requires len < 272
    ensures Codes(LenTrace(Coder(rep), ps, len), LenCode(rep, ps, len))
  {
    hide BitTreeTrace, Shr, Bit, Codes, Pow2, Node;
    PowThree();
    var c0, c1 := Model(Coder(rep) + LEN_CHOICE), Model(Coder(rep) + LEN_CHOICE_2);
    if len < 8 {
      var code := seq(3, i requires 0 <= i < 3 => Under(Low(rep, ps, Node(3, len, i)), Bit(len, 2 - i)));
      TreeCoded(LenLowAt(Coder(rep), ps), 3, len, code);
      FirstCoded(Sym(c0, false), Under(Choice(rep, 0), false), BitTreeTrace(LenLowAt(Coder(rep), ps), 3, len), code);
    } else if len < 16 {
      var base := LenMidAt(Coder(rep), ps);
      var code := seq(3, i requires 0 <= i < 3 => Under(Mid(rep, ps, Node(3, len - 8, i)), Bit(len - 8, 2 - i)));
      TreeCoded(base, 3, len - 8, code);
      TwoCoded(Sym(c0, true), Under(Choice(rep, 0), true), Sym(c1, false), Under(Choice(rep, 1), false), BitTreeTrace(base, 3, len - 8), code);
    } else {
      var base := Coder(rep) + LEN_HIGH;
      var code := seq(8, i requires 0 <= i < 8 => Under(High(rep, Node(8, len - 16, i)), Bit(len - 16, 7 - i)));
      TreeCoded(base, 8, len - 16, code);
      TwoCoded(Sym(c0, true), Under(Choice(rep, 0), true), Sym(c1, true), Under(Choice(rep, 1), true), BitTreeTrace(base, 8, len - 16), code);
    }
  }

  lemma PowThree()
    ensures Pow2(3) == 8 && Pow2(8) == 256
  {}

  lemma FirstCoded(y: Sym, c: Coded, tr: seq<Sym>, code: seq<Coded>)
    requires Is(y, c) && Codes(tr, code)
    ensures Codes([y] + tr, [c] + code)
  {}

  lemma TwoCoded(y: Sym, c: Coded, y': Sym, c': Coded, tr: seq<Sym>, code: seq<Coded>)
    requires Is(y, c) && Is(y', c') && Codes(tr, code)
    ensures Codes([y] + ([y'] + tr), [c, c'] + code)
  {
    hide Is;
    FirstCoded(y', c', tr, code);
    FirstCoded(y, c, [y'] + tr, [c'] + code);
    assert [c] + ([c'] + code) == [c, c'] + code;
  }

  // ---------- distances ----------

  /** The slot of a distance: its two leading bits and how many bits it has. */
  lemma {:induction false} SlotMeaning(dist: nat)
    ensures dist < 4 ==> SlotOf(dist) == dist
    ensures dist >= 4 ==>
      && SlotOf(dist) >= 4
      && Pow2(SlotOf(dist) / 2) <= dist < 2 * Pow2(SlotOf(dist) / 2)
      && (Bit(dist, SlotOf(dist) / 2 - 1) <==> SlotOf(dist) % 2 == 1)
  {
    if dist >= 4 {
      LeadMeaning(dist);
      LeadDeep(dist);
    }
  }

  lemma {:induction false} LeadMeaning(dist: nat)
    requires dist >= 2
    ensures var (l, n) := Lead(dist);
            && Pow2(n + 1) <= dist < 2 * Pow2(n + 1)
            && (Bit(dist, n) <==> l == 3)
  {
    if dist >= 4 { LeadMeaning(dist / 2); }
  }

  /** The bits below the two leading ones are those of the distance. */
  lemma ExtraBits(dist: nat, i: nat)
    requires 4 <= dist < U32 && i <= SlotBits(SlotOf(dist))
    ensures SlotOf(dist) >= 4 && RevNode(Extra(dist), i) == RevNode(dist, i)
    ensures i < SlotBits(SlotOf(dist)) ==> Bit(Extra(dist), i) == Bit(dist, i)
  {
    hide Shl, Bit, Pow2, Lead, SlotOf;
    DistanceSplits(dist);
    LowBitsAbove(Extra(dist), SlotLead(SlotOf(dist)), SlotBits(SlotOf(dist)), i);
  }

  lemma {:induction false} LowBitsAbove(x: nat, a: nat, n: nat, i: nat)
    requires i <= n
    ensures Shl(a, n) >= 0
    ensures i < n ==> Bit(Shl(a, n) + x, i) == Bit(x, i)
    ensures RevNode(Shl(a, n) + x, i) == RevNode(x, i)
  {
    ShlNat(a, n);
    if i < n { BitAbove(x, a, n, i); }
    if i > 0 {
      LowBitsAbove(x, a, n, i - 1);
    }
  }

  lemma {:induction false} BitAbove(x: nat, a: nat, n: nat, i: nat)
    requires i < n
    ensures Shl(a, n) >= 0 && Bit(Shl(a, n) + x, i) == Bit(x, i)
  {
    ShlNat(a, n);
    if i > 0 {
      BitAbove(x / 2, a, n - 1, i - 1);
      assert (Shl(a, n) + x) / 2 == Shl(a, n - 1) + x / 2;
    }
  }

  lemma BitShifted(x: nat, i: nat)
    ensures Bit(x / 16, i) == Bit(x, i + 4)
  {
    assert Bit(x, i + 4) == Bit(x / 2, i + 3) == Bit(x / 4, i + 2) == Bit(x / 8, i + 1) == Bit(x / 16, i);
  }

  /** The last four bits. */
  lemma AlignBits(x: nat, i: nat)
    requires i <= 4
    ensures RevNode(x % 16, i) == RevNode(x, i)
    ensures i < 4 ==> Bit(x % 16, i) == Bit(x, i)
  {
    PowSix();
    ShlTimes(x / 16, 4);
    LowBitsAbove(x % 16, x / 16, 4, i);
  }

  lemma NearCoded(dist: nat)
    requires 4 <= dist < U32 && SlotOf(dist) < 14
    ensures var n := SlotOf(dist) / 2 - 1;
            Codes(DistTail(SlotOf(dist), Extra(dist)),
                  seq(n, i requires 0 <= i < n => Under(Spec(SlotOf(dist), RevNode(dist, i)), Bit(dist, i))))
  {
    hide RevTrace, Bit, RevNode, SpecAt, SlotOf, Extra;
    DistanceSplits(dist);
    var slot, x := SlotOf(dist), Extra(dist);
    var n := SlotBits(slot);
    SpecFits(slot, BASE_SIZE);
    var tr := RevTrace(SpecAt(slot), n, 1, x);
    RevLength(SpecAt(slot), n, 1, x);
    forall i | 0 <= i < n ensures Is(tr[i], Under(Spec(slot, RevNode(dist, i)), Bit(dist, i))) {
      RevAt(SpecAt(slot), n, 1, x, i);
      ExtraBits(dist, i);
    }
  }

  lemma ExtraSmall(dist: nat)
    requires 4 <= dist < U32
    ensures SlotOf(dist) >= 4 && Extra(dist) < Pow2(SlotBits(SlotOf(dist)))
  {
    hide SlotOf, SlotBase, SlotBits;
    DistanceSplits(dist);
  }

  lemma FarBit(dist: nat, i: nat)
    requires 4 <= dist < U32 && SlotOf(dist) >= 14 && i < SlotBits(SlotOf(dist)) - 4
    ensures var n := SlotBits(SlotOf(dist));
            && i < |DirectTrace(n - 4, Extra(dist) / 16)|
            && DirectTrace(n - 4, Extra(dist) / 16)[i] == Sym(Direct, Bit(dist, n - 1 - i))
  {
    hide DirectTrace, Bit, RevNode, SlotOf, Extra, Pow2;
    var n := SlotBits(SlotOf(dist));
    ExtraSmall(dist);
    Sixteenths(0, n, Extra(dist));
    DirectAt(n - 4, Extra(dist) / 16, i);
    BitShifted(Extra(dist), n - 5 - i);
    ExtraBits(dist, n - 1 - i);
  }

  lemma LastBit(dist: nat, i: nat)
    requires 4 <= dist < U32 && SlotOf(dist) >= 14 && i < 4
    ensures i < |RevTrace(ALIGN, 4, 1, Extra(dist) % 16)|
    ensures RevTrace(ALIGN, 4, 1, Extra(dist) % 16)[i] == Sym(Model(ALIGN + RevNode(dist, i)), Bit(dist, i))
  {
    hide RevTrace, Bit, RevNode, SlotOf, Extra, Pow2;
    RevAt(ALIGN, 4, 1, Extra(dist) % 16, i);
    AlignBits(Extra(dist), i);
    ExtraBits(dist, i);
  }

  lemma FarCoded(dist: nat)
    requires 4 <= dist < U32 && SlotOf(dist) >= 14
    ensures SlotOf(dist) < 64
    ensures var n := SlotOf(dist) / 2 - 1;
            Codes(DistTail(SlotOf(dist), Extra(dist)),
                  seq(n - 4, i requires 0 <= i < n - 4 => Even(Bit(dist, n - 1 - i))) +
                  seq(4, i requires 0 <= i < 4 => Under(Align(RevNode(dist, i)), Bit(dist, i))))
  {
    hide RevTrace, DirectTrace, Bit, RevNode, SlotOf, Extra, Pow2, SlotBase;
    DistanceSplits(dist);
    var slot, x := SlotOf(dist), Extra(dist);
    var n := SlotBits(slot);
    var high, low := DirectTrace(n - 4, x / 16), RevTrace(ALIGN, 4, 1, x % 16);
    DirectLength(n - 4, x / 16);
    RevLength(ALIGN, 4, 1, x % 16);
    forall i | 0 <= i < n - 4 ensures Is(high[i], Even(Bit(dist, n - 1 - i))) {
      FarBit(dist, i);
    }
    forall i | 0 <= i < 4 ensures Is(low[i], Under(Align(RevNode(dist, i)), Bit(dist, i))) {
      LastBit(dist, i);
    }
    CodesBoth(high, seq(n - 4, i requires 0 <= i < n - 4 => Even(Bit(dist, n - 1 - i))),
              low, seq(4, i requires 0 <= i < 4 => Under(Align(RevNode(dist, i)), Bit(dist, i))));
  }

  lemma DistCoded(len: nat, dist: nat)
    requires dist < U32
    ensures Codes(DistTrace(len, dist), DistCode(len, dist))
  {
    hide BitTreeTrace, Bit, RevNode, SlotOf, Extra, Pow2, DistTail, Shr, Codes, Node, SlotBase;
    DistanceSplits(dist);
    SlotSmall(dist);
    PowSix();
    var slot, l := SlotOf(dist), if len < 3 then len else 3;
    var head := seq(6, i requires 0 <= i < 6 => Under(Slot(l, Node(6, slot, i)), Bit(slot, 5 - i)));
    TreeCoded(PosSlotAt(len), 6, slot, head);
    if slot < 4 {
      NoneCoded(slot, Extra(dist));
      CodesBoth(BitTreeTrace(PosSlotAt(len), 6, slot), head, [], []);
      assert DistCode(len, dist) == head + [];
    } else if slot < 14 {
      NearCoded(dist);
      CodesBoth(BitTreeTrace(PosSlotAt(len), 6, slot), head, DistTail(slot, Extra(dist)),
                seq(slot / 2 - 1, i requires 0 <= i < slot / 2 - 1 => Under(Spec(slot, RevNode(dist, i)), Bit(dist, i))));
    } else {
      FarCoded(dist);
      var n := slot / 2 - 1;
      CodesBoth(BitTreeTrace(PosSlotAt(len), 6, slot), head, DistTail(slot, Extra(dist)),
                seq(n - 4, i requires 0 <= i < n - 4 => Even(Bit(dist, n - 1 - i))) +
                seq(4, i requires 0 <= i < 4 => Under(Align(RevNode(dist, i)), Bit(dist, i))));
    }
  }

  lemma NoneCoded(slot: nat, x: nat)
    requires slot < 4
    ensures DistTail(slot, x) == [] && Codes([], [])
  {}

  lemma KindCoded(st: nat, ps: nat, p: Packet)
    requires PacketOk(p)
    ensures Codes(KindTrace(st, ps, p), KindCode(st, ps, p))
  {
    hide RepTrace, RepCode;
    if p.ShortRep? || p.Rep? {
      RepCoded(st, ps, p);
      TwoCoded(Sym(Model(IsMatchAt(st, ps)), true), Under(IsMatch(st, ps), true), Sym(Model(IS_REP + st), true), Under(IsRep(st), true),
               RepTrace(st, ps, p), RepCode(st, ps, p));
    }
  }

  lemma RepCoded(st: nat, ps: nat, p: Packet)
    requires PacketOk(p) && (p.ShortRep? || p.Rep?)
    ensures Codes(RepTrace(st, ps, p), RepCode(st, ps, p))
  {}

  /** The decoder's context arithmetic. */
  lemma ContextCoded(pr: Props, pos: nat, prev: nat)
    requires PropsOk(pr)
    ensures PosState(pr, pos) == pos % Pow2(pr.pb)
    ensures LitContext(pr, pos, prev) == ContextOf(pr, pos, prev)
  {
    hide And, Shl, Shr, Pow2;
    ShrDivides(pos, pr.pb);
    ShrDivides(pos, pr.lp);
    ShrDivides(prev, 8 - pr.lc);
    ShlTimes(And(pos, Pow2(pr.lp) - 1), pr.lc);
  }

  /** The bits that decode to a packet, and the models they are coded under, are those of its code. */
  lemma PacketCoded(pr: Props, st: nat, c: Context, p: Packet)
    requires PropsOk(pr) && PacketOk(p)
    ensures Codes(PacketTrace(pr, st, c, p), Code(pr, st, c, p))
  {
    hide KindTrace, LitTrace, LenTrace, DistTrace, KindCode, LitCode, LenCode, DistCode, PosState, LitContext, LiteralAt, ContextOf, Codes;
    ContextCoded(pr, c.pos, c.prev);
    var ps := c.pos % Pow2(pr.pb);
    KindCoded(st, ps, p);
    match p {
      case Lit(b) => LitCoded(ContextOf(pr, c.pos, c.prev), st >= 7, c.mb, b);
      case Match(len, dist) =>
        LenCoded(false, ps, len);
        DistCoded(len, dist);
        CodesBoth(LenTrace(LEN_CODER, ps, len), LenCode(false, ps, len), DistTrace(len, dist), DistCode(len, dist));
      case ShortRep => NoneCoded(0, 0);
      case Rep(_, len) => LenCoded(true, ps, len);
    }
    CodesBoth(KindTrace(st, ps, p), KindCode(st, ps, p), BodyTrace(pr, st, c, p), Code(pr, st, c, p)[|KindCode(st, ps, p)|..]);
  }
}
