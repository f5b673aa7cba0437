/** The adaptive binary range decoder of decompress.c, as a function on its registers, and the
    exact-integer encoder it inverts. */
module RangeCoder {

  type Byte = b: int | 0 <= b < 256

  const U32: int := 0x1_0000_0000
  /** 1 << RC_TOP_BITS. */
  const TOP: int := 0x100_0000
  /** 1 << RC_MODEL_TOTAL_BITS. */
  const TOTAL: int := 2048

  /** Why the decoder stops for good: error() halts the machine. */
  datatype Why = UnexpectedEof | Corrupt | BadHeader | OutOfBuffer

  datatype Outcome<+T> = Halt(why: Why) | Got(value: T, dec: Dec) {
    predicate IsFailure() { Halt? }
    function PropagateFailure<U>(): Outcome<U>
      requires Halt?
    {
      Halt(why)
    }
    function Extract(): (T, Dec)
      requires Got?
    {
      (value, dec)
    }
  }

  /** code, range, the read position in the coded bytes, and the probabilities. */
  datatype Dec = Dec(code: int, range: int, pos: nat, probs: seq<int>)

  /** What is asked of the coder: a bit under an adaptive probability, or an even one. */
  datatype Query = Model(i: nat) | Direct

  ghost predicate ProbsOk(probs: seq<int>) {
    forall i :: 0 <= i < |probs| ==> 31 <= probs[i] <= 2017
  }

  /** The register invariant between bits, whatever the input: one 8-bit shift is always enough
      to bring range back to 2^24. */
  ghost predicate DecOk(d: Dec) {
    && 0 <= d.code < U32 && 0x10000 <= d.range < U32
    && ProbsOk(d.probs)
  }

  ghost predicate Asks(q: Query, probs: seq<int>) {
    q.Model? ==> q.i < |probs|
  }

  /** rc_normalize, 32-bit shifts included. */
  function Normalize(s: seq<Byte>, d: Dec): (r: Outcome<()>)
    requires DecOk(d)
    ensures r.Got? ==> DecOk(r.dec) && r.dec.range >= TOP && r.dec.probs == d.probs
    ensures r.Halt? <==> d.range < TOP && d.pos >= |s|
    ensures r.Halt? ==> r.why == UnexpectedEof
  {
    if d.range >= TOP then Got((), d)
    else if d.pos >= |s| then Halt(UnexpectedEof)
    else Got((), d.(range := d.range * 256 % U32, code := d.code * 256 % U32 + s[d.pos], pos := d.pos + 1))
  }

  function Bound(range: int, p: int): int {
    p * (range / TOTAL)
  }

  /** Each split leaves both sides a non-empty share that one more shift makes large enough. */
  lemma SplitBounds(range: int, p: int)
    requires TOP <= range < U32 && 31 <= p <= 2017
    ensures 0x10000 <= Bound(range, p) && 0x10000 <= range - Bound(range, p) && Bound(range, p) < U32
  {
    var r := range / TOTAL;
    assert p * r >= 31 * r;
    assert p * r <= 2017 * r;
  }

  function Up(p: int): int {
    p + (TOTAL - p) / 32
  }

  function Down(p: int): int {
    p - p / 32
  }

  /** The first share is to the whole as p is to 2048, rounded down. */
  lemma ShareOfRange(range: int, p: int)
    requires 0 <= range && 0 < p
    ensures 2048 * Bound(range, p) <= p * range < 2048 * (Bound(range, p) + p)
  {
    var q, r := range / TOTAL, range % TOTAL;
    assert p * range == TOTAL * (p * q) + p * r;
    assert p * r < p * TOTAL;
  }

  /** The two updates mirror each other, and each closes one 32nd of the gap, rounded down. */
  lemma Adapts(p: int)
    requires 0 <= p <= TOTAL
    ensures Up(p) + Down(TOTAL - p) == TOTAL == 2048
    ensures 32 * (p - Down(p)) <= p < 32 * (p - Down(p)) + 32
    ensures 32 * (Up(p) - p) <= 2048 - p < 32 * (Up(p) - p) + 32
  {}

  /** rc_is_bit_0 and the update that follows it, or rc_direct_bit. */
  function Step(s: seq<Byte>, d: Dec, q: Query): (r: Outcome<bool>)
    requires DecOk(d) && Asks(q, d.probs)
    ensures r.Got? ==> DecOk(r.dec) && |r.dec.probs| == |d.probs| && r.dec.pos >= d.pos
    ensures r.Halt? ==> r.why == UnexpectedEof
  {
    var (_, n) :- Normalize(s, d);
    match q
    case Model(i) =>
      var p := n.probs[i];
      SplitBounds(n.range, p);
      var bound := Bound(n.range, p);
      if n.code < bound then
        Got(false, n.(range := bound, probs := n.probs[i := Up(p)]))
      else
        Got(true, n.(range := n.range - bound, code := n.code - bound, probs := n.probs[i := Down(p)]))
    case Direct =>
      var half := n.range / 2;
      if n.code >= half then Got(true, n.(range := half, code := n.code - half))
      else Got(false, n.(range := half))
  }

  lemma NormalizeBelow(s: seq<Byte>, d: Dec)
    requires DecOk(d) && d.code < d.range && Normalize(s, d).Got?
    ensures Normalize(s, d).dec.code < Normalize(s, d).dec.range
  {
    if d.range < TOP {
      assert d.code * 256 % U32 == d.code * 256 && d.range * 256 % U32 == d.range * 256;
    }
  }

  /** code stays below range on every bit but one: an even bit drops the last value of an odd range,
      so from code == range - 1 the decoder leaves code equal to range. */
  lemma StaysBelow(s: seq<Byte>, d: Dec, q: Query)
    requires DecOk(d) && Asks(q, d.probs) && d.code < d.range && Step(s, d, q).Got?
    ensures var n, r := Normalize(s, d).dec, Step(s, d, q).dec;
            r.code < r.range <==> !(q.Direct? && n.range % 2 == 1 && n.code == n.range - 1)
  {
    hide Normalize;
    NormalizeBelow(s, d);
    var n := Normalize(s, d).dec;
    if q.Model? { SplitBounds(n.range, n.probs[q.i]); }
  }

  // ---------- the encoder ----------

  /** The interval [low, low + range) in units of 256^-n of the initial one. */
  datatype Enc = Enc(low: nat, range: int, n: nat, probs: seq<int>)

  datatype Sym = Sym(q: Query, bit: bool)

  ghost predicate EncOk(e: Enc) {
    0x10000 <= e.range < U32 && ProbsOk(e.probs)
  }

  function Widen(e: Enc): Enc {
    if e.range >= TOP then e else Enc(e.low * 256, e.range * 256, e.n + 1, e.probs)
  }

  /** Narrow the interval to the share of one bit. */
  function Encode(e: Enc, y: Sym): (r: Enc)
    requires EncOk(e) && Asks(y.q, e.probs)
    ensures EncOk(r) && |r.probs| == |e.probs|
  {
    var w := Widen(e);
    match y.q
    case Model(i) =>
      var p := w.probs[i];
      SplitBounds(w.range, p);
      var bound := Bound(w.range, p);
      if y.bit then Enc(w.low + bound, w.range - bound, w.n, w.probs[i := Down(p)])
      else Enc(w.low, bound, w.n, w.probs[i := Up(p)])
    case Direct =>
      var half := w.range / 2;
      Enc(if y.bit then w.low + half else w.low, half, w.n, w.probs)
  }

  /** The interval, widened to at least 2^24, is cut in two: a 0 bit takes the lower part and makes the next
      0 likelier, a 1 bit the rest and the opposite. Even bits get halves, an odd last value being dropped. */
  lemma EncodeSplits(e: Enc, q: Query)
    requires EncOk(e) && Asks(q, e.probs)
    ensures var w, e0, e1 := Widen(e), Encode(e, Sym(q, false)), Encode(e, Sym(q, true));
            && w.range >= 0x100_0000 && e0.n == e1.n == w.n
            && e0.low == w.low && e1.low == w.low + e0.range
            && match q
               case Model(i) =>
                 var p := e.probs[i];
                 && e0.range + e1.range == w.range && 2048 * e0.range <= p * w.range < 2048 * (e0.range + p)
                 && e0.probs == e.probs[i := Up(p)] && e1.probs == e.probs[i := Down(p)] && e1.probs[i] <= p <= e0.probs[i]
               case Direct => e0.range == e1.range && w.range - 1 <= 2 * e0.range <= w.range && e0.probs == e1.probs == e.probs
  {
    hide ProbsOk;
    var w := Widen(e);
    if q.Model? {
      ProbAt(e.probs, q.i);
      ShareOfRange(w.range, w.probs[q.i]);
    }
  }

  lemma ProbAt(probs: seq<int>, i: nat)
    requires ProbsOk(probs) && i < |probs|
    ensures 31 <= probs[i] <= 2017
  {}

  ghost predicate AskAll(tr: seq<Sym>, n: nat) {
    forall k :: 0 <= k < |tr| ==> tr[k].q.Model? ==> tr[k].q.i < n
  }

  function EncodeAll(e: Enc, tr: seq<Sym>): (r: Enc)
    requires EncOk(e) && AskAll(tr, |e.probs|)
    ensures EncOk(r) && |r.probs| == |e.probs|
    decreases tr
  {
    if tr == [] then e else EncodeAll(Encode(e, tr[0]), tr[1..])
  }

  // ---------- the coded bytes as a number ----------

  /** The first k bytes read as a big-endian number, the very first byte left out. */
  function Value(s: seq<Byte>, k: nat): nat
    requires k <= |s|
  {
    if k <= 1 then 0 else Value(s, k - 1) * 256 + s[k - 1]
  }

  /** The bytes lie in the encoder's interval. */
  ghost predicate Contains(s: seq<Byte>, e: Enc) {
    e.n + 5 <= |s| && e.low <= Value(s, e.n + 5) < e.low + e.range
  }

  /** Decoder and encoder in step: code is the value read so far minus low, and below range. */
  ghost predicate Sync(s: seq<Byte>, d: Dec, e: Enc) {
    && d.range == e.range && d.probs == e.probs && d.pos == e.n + 5 <= |s|
    && d.code == Value(s, d.pos) - e.low && 0 <= d.code < d.range
  }

  lemma WidenNests(s: seq<Byte>, e: Enc)
    requires Contains(s, Widen(e))
    ensures Contains(s, e)
  {
    if e.range < TOP {
      var v := Value(s, e.n + 5);
      assert Value(s, e.n + 6) == v * 256 + s[e.n + 5];
    }
  }

  /** Bytes in the narrowed interval were already in the wider one. */
  lemma EncodeNests(s: seq<Byte>, e: Enc, y: Sym)
    requires EncOk(e) && Asks(y.q, e.probs) && Contains(s, Encode(e, y))
    ensures Contains(s, Widen(e)) && Contains(s, e)
  {
    var w := Widen(e);
    if y.q.Model? { SplitBounds(w.range, w.probs[y.q.i]); }
    WidenNests(s, e);
  }

  lemma NormalizeSync(s: seq<Byte>, d: Dec, e: Enc)
    requires EncOk(e) && DecOk(d) && Sync(s, d, e) && Contains(s, Widen(e))
    ensures Normalize(s, d).Got? && Sync(s, Normalize(s, d).dec, Widen(e))
  {
    if e.range < TOP {
      assert Value(s, e.n + 6) == Value(s, e.n + 5) * 256 + s[e.n + 5];
    }
  }

  /** One bit: the decoder returns the bit that was encoded, and stays in step. */
  lemma StepInverts(s: seq<Byte>, d: Dec, e: Enc, y: Sym)
    requires EncOk(e) && DecOk(d) && Asks(y.q, e.probs) && Sync(s, d, e) && Contains(s, Encode(e, y))
    ensures var r := Step(s, d, y.q);
            r.Got? && r.value == y.bit && Sync(s, r.dec, Encode(e, y))
  {
    EncodeNests(s, e, y);
    NormalizeSync(s, d, e);
  }

  lemma {:induction false} AllNest(s: seq<Byte>, e: Enc, tr: seq<Sym>)
    requires EncOk(e) && AskAll(tr, |e.probs|) && Contains(s, EncodeAll(e, tr))
    ensures Contains(s, e)
    decreases tr
  {
    if tr != [] {
      AllNest(s, Encode(e, tr[0]), tr[1..]);
      EncodeNests(s, e, tr[0]);
    }
  }

  /** The decoder asked the queries of tr one after another: its state if it answers with the bits
      of tr, and nothing otherwise. */
  function Replay(s: seq<Byte>, d: Dec, tr: seq<Sym>): (r: Outcome<()>)
    requires DecOk(d) && AskAll(tr, |d.probs|)
    ensures r.Got? ==> DecOk(r.dec) && |r.dec.probs| == |d.probs|
    decreases tr
  {
    if tr == [] then Got((), d)
    else
      var (b, d1) :- Step(s, d, tr[0].q);
      if b == tr[0].bit then Replay(s, d1, tr[1..]) else Halt(Corrupt)
  }

  /** The range decoder inverts range coding: decoding any bytes in the interval of a bit sequence
      returns that sequence, keeping code equal to value minus low and below range. */
  lemma {:induction false} DecoderInverts(s: seq<Byte>, d: Dec, e: Enc, tr: seq<Sym>)
    requires EncOk(e) && DecOk(d) && AskAll(tr, |e.probs|) && Sync(s, d, e)
    requires Contains(s, EncodeAll(e, tr))
    ensures Replay(s, d, tr).Got? && Sync(s, Replay(s, d, tr).dec, EncodeAll(e, tr))
    decreases tr
  {
    if tr != [] {
      var e1 := Encode(e, tr[0]);
      AllNest(s, e1, tr[1..]);
      StepInverts(s, d, e, tr[0]);
      DecoderInverts(s, Step(s, d, tr[0].q).dec, e1, tr[1..]);
    }
  }

  lemma {:induction false} ReplayConcat(s: seq<Byte>, d: Dec, a: seq<Sym>, b: seq<Sym>)
    requires DecOk(d) && AskAll(a, |d.probs|) && AskAll(b, |d.probs|)
    ensures AskAll(a + b, |d.probs|)
    ensures Replay(s, d, a + b).Got? <==> Replay(s, d, a).Got? && Replay(s, Replay(s, d, a).dec, b).Got?
    ensures Replay(s, d, a + b).Got? ==> Replay(s, d, a + b) == Replay(s, Replay(s, d, a).dec, b)
    decreases a
  {
    if a == [] {
      assert a + b == b;
    } else {
      assert (a + b)[1..] == a[1..] + b;
      var r := Step(s, d, a[0].q);
      if r.Got? { ReplayConcat(s, r.dec, a[1..], b); }
    }
  }

  // ---------- start-up ----------

  function InitialProbs(n: nat): (p: seq<int>)
    ensures |p| == n && ProbsOk(p)
  {
    seq(n, _ => TOTAL / 2)
  }

  /** At the start neither bit is favoured, and the interval is all 32-bit numbers but the last. */
  lemma EvenStart(n: nat, i: nat)
    requires i < n
    ensures 2 * InitialProbs(n)[i] == 2048
    ensures InitialEnc(n).low == 0 && InitialEnc(n).range + 1 == 0x1_0000_0000
  {}

  /** rc_init_code: five bytes shifted into a 32-bit register. */
  function InitCode(s: seq<Byte>, k: nat): int
    requires k <= |s|
    decreases k
  {
    if k == 0 then 0 else InitCode(s, k - 1) * 256 % U32 + s[k - 1]
  }

  function Init(s: seq<Byte>, n: nat): (r: Outcome<()>)
    ensures r.Got? ==> DecOk(r.dec) && |r.dec.probs| == n
  {
    if |s| < 5 then Halt(UnexpectedEof)
    else
      InitCodeValue(s);
      Got((), Dec(InitCode(s, 5), U32 - 1, 5, InitialProbs(n)))
  }

  /** The first byte is shifted out again. */
  lemma InitCodeValue(s: seq<Byte>)
    requires |s| >= 5
    ensures InitCode(s, 5) == Value(s, 5) < U32
  {
    var b0: int, b1: int, b2: int, b3: int, b4: int := s[0], s[1], s[2], s[3], s[4];
    assert InitCode(s, 1) == b0 && InitCode(s, 2) == b0 * 256 + b1;
    assert InitCode(s, 3) == b0 * 65536 + b1 * 256 + b2;
    assert InitCode(s, 4) == b0 * 0x100_0000 + b1 * 65536 + b2 * 256 + b3;
    assert InitCode(s, 5) == b1 * 0x100_0000 + b2 * 65536 + b3 * 256 + b4;
    assert Value(s, 2) == b1 && Value(s, 3) == b1 * 256 + b2;
    assert Value(s, 4) == b1 * 65536 + b2 * 256 + b3;
  }

  function InitialEnc(n: nat): (e: Enc)
    ensures EncOk(e) && |e.probs| == n
  {
    Enc(0, U32 - 1, 0, InitialProbs(n))
  }

  /** Decoding from the first byte on. */
  lemma InitSync(s: seq<Byte>, n: nat)
    requires Contains(s, InitialEnc(n))
    ensures Init(s, n).Got? && Sync(s, Init(s, n).dec, InitialEnc(n))
  {
    InitCodeValue(s);
  }

  // ---------- every bit sequence has a coding ----------

  function Scale(n: nat): (r: nat)
    ensures r >= 1
  {
    if n == 0 then 1 else 256 * Scale(n - 1)
  }

  function BytesOf(v: nat, k: nat): (s: seq<Byte>)
    ensures |s| == k
  {
    if k == 0 then [] else BytesOf(v / 256, k - 1) + [v % 256]
  }

  lemma {:induction false} ValueExtends(s: seq<Byte>, t: seq<Byte>, k: nat)
    requires k <= |s|
    ensures Value(s + t, k) == Value(s, k)
  {
    if k > 1 { ValueExtends(s, t, k - 1); }
  }

  lemma {:induction false} BytesValue(v: nat, k: nat)
    requires v < Scale(k)
    ensures Value([0] + BytesOf(v, k), k + 1) == v
  {
    if k > 0 {
      BytesValue(v / 256, k - 1);
      var s := [0] + BytesOf(v / 256, k - 1);
      assert [0] + BytesOf(v, k) == s + [v % 256];
      ValueExtends(s, [v % 256], k);
    }
  }

  ghost predicate Fits(e: Enc) {
    e.low + e.range <= Scale(e.n + 4)
  }

  lemma EncodeFits(e: Enc, y: Sym)
    requires EncOk(e) && Asks(y.q, e.probs) && Fits(e)
    ensures Fits(Encode(e, y))
  {
    var w := Widen(e);
    assert Fits(w);
    if y.q.Model? { SplitBounds(w.range, w.probs[y.q.i]); }
  }

  lemma {:induction false} AllFit(e: Enc, tr: seq<Sym>)
    requires EncOk(e) && AskAll(tr, |e.probs|) && Fits(e)
    ensures Fits(EncodeAll(e, tr))
    decreases tr
  {
    if tr != [] {
      EncodeFits(e, tr[0]);
      AllFit(Encode(e, tr[0]), tr[1..]);
    }
  }

  /** For every bit sequence there are bytes that decode to it. */
  lemma EveryTraceHasBytes(n: nat, tr: seq<Sym>) returns (s: seq<Byte>)
    requires AskAll(tr, n)
    ensures Contains(s, EncodeAll(InitialEnc(n), tr))
    ensures Init(s, n).Got? && Replay(s, Init(s, n).dec, tr).Got?
  {
    hide EncodeAll, Replay, Contains, Sync, Init, InitialEnc;
    s := IntervalBytes(n, tr);
    AllNest(s, InitialEnc(n), tr);
    InitSync(s, n);
    DecoderInverts(s, Init(s, n).dec, InitialEnc(n), tr);
  }

  /** The low end of the interval, written out in bytes. */
  lemma IntervalBytes(n: nat, tr: seq<Sym>) returns (s: seq<Byte>)
    requires AskAll(tr, n)
    ensures Contains(s, EncodeAll(InitialEnc(n), tr))
  {
    var e := EncodeAll(InitialEnc(n), tr);
    assert Scale(4) == U32;
    AllFit(InitialEnc(n), tr);
    s := [0] + BytesOf(e.low, e.n + 4);
    BytesValue(e.low, e.n + 4);
  }

  /** A stream whose first two even bits take code from below range to range, and then beyond it. */
  lemma BeyondRange()
    ensures var s: seq<Byte> := [0, 255, 255, 255, 254];
            && Init(s, 0).Got?
            && var d := Init(s, 0).dec;
            && d.code < d.range && Step(s, d, Direct).Got?
            && var d1 := Step(s, d, Direct).dec;
            && d1.code == d1.range && Step(s, d1, Direct).Got?
            && var d2 := Step(s, d1, Direct).dec;
               d2.code == d2.range + 1
  {
    InitCodeValue([0, 255, 255, 255, 254]);
    assert Value([0, 255, 255, 255, 254], 5) == 0xFFFF_FFFE by {
      var s: seq<Byte> := [0, 255, 255, 255, 254];
      assert Value(s, 2) == 255 && Value(s, 3) == 65535 && Value(s, 4) == 0xFF_FFFF;
    }
  }
}
