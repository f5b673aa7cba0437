/** Packets: the sliding-window meaning of an LZMA stream, its decoder, and the round trip. */
module LzmaStream {
  import opened Bits
  import opened RangeCoder
  import opened LzmaFormat
  import opened LzmaCodec

  /** A literal byte, a match (length less two, distance less one), a one-byte repeat of the last
      distance, or a repeat of one of the last four distances. */
  datatype Packet =
    | Lit(b: Byte)
    | Match(len: nat, dist: nat)
    | ShortRep
    | Rep(which: nat, len: nat)

  /** struct cstate. */
  datatype CState = CState(state: nat, rep0: nat, rep1: nat, rep2: nat, rep3: nat)

  predicate PacketOk(p: Packet) {
    match p
    case Lit(_) => true
    case Match(len, dist) => len < 272 && dist < U32
    case ShortRep => true
    case Rep(w, len) => w < 4 && len < 272
  }

  // ---------- one packet's bits ----------

  /** What the coding of the next packet depends on: the output position, its last byte, and the
      byte at distance rep0. */
  datatype Context = Context(pos: nat, prev: Byte, mb: Byte)

  lemma LitBase(pr: Props, c: Context, n: nat)
    requires PropsOk(pr) && n == NumProbs(pr)
    ensures 0 <= LitContext(pr, c.pos, c.prev)
    ensures LITERAL <= LiteralAt(LitContext(pr, c.pos, c.prev)) && LiteralAt(LitContext(pr, c.pos, c.prev)) + LIT_SIZE <= n
  {
    hide LitContext, Pow2;
    LitContextBound(pr, c.pos, c.prev);
    var x := LitContext(pr, c.pos, c.prev);
    assert LIT_SIZE * (x + 1) <= LIT_SIZE * Pow2(pr.lc + pr.lp);
  }

  function PacketDec(s: seq<Byte>, d: Dec, pr: Props, st: nat, c: Context): (r: Outcome<Packet>)
    requires Ready(d, NumProbs(pr)) && PropsOk(pr) && st < NUM_STATES
    ensures r.Got? ==> Ready(r.dec, NumProbs(pr)) && PacketOk(r.value)
    ensures r.Halt? ==> r.why == UnexpectedEof
  {
    PosStateBound(pr, c.pos);
    LitBase(pr, c, NumProbs(pr));
    var ps := PosState(pr, c.pos);
    var (isMatch, d1) :- Step(s, d, Model(IsMatchAt(st, ps)));
    if !isMatch then
      var (x, d2) :- LitDec(s, d1, LiteralAt(LitContext(pr, c.pos, c.prev)), st >= NUM_LIT_STATES, c.mb);
      Got(Lit(x), d2)
    else
      CopyDec(s, d1, st, ps)
  }

  /** A packet that copies, after the bit that says so. */
  function CopyDec(s: seq<Byte>, d: Dec, st: nat, ps: nat): (r: Outcome<Packet>)
    requires DecOk(d) && BASE_SIZE <= |d.probs| && st < NUM_STATES && ps < 16
    ensures r.Got? ==> Ready(r.dec, |d.probs|) && PacketOk(r.value) && !r.value.Lit?
    ensures r.Halt? ==> r.why == UnexpectedEof
  {
    var (isRep, d2) :- Step(s, d, Model(IS_REP + st));
    if !isRep then MatchDec(s, d2, ps) else RepKindDec(s, d2, st, ps)
  }

  /** Which repeat it is: one of the four distances, or the one-byte repeat. */
  const SHORT: nat := 4

  function RepSelDec(s: seq<Byte>, d: Dec, st: nat, ps: nat): (r: Outcome<nat>)
    requires DecOk(d) && BASE_SIZE <= |d.probs| && st < NUM_STATES && ps < 16
    ensures r.Got? ==> Ready(r.dec, |d.probs|) && r.value <= SHORT
    ensures r.Halt? ==> r.why == UnexpectedEof
  {
    var (notRep0, d3) :- Step(s, d, Model(IS_REP_G0 + st));
    if !notRep0 then
      var (long, d4) :- Step(s, d3, Model(Rep0LongAt(st, ps)));
      Got(if long then 0 else SHORT, d4)
    else
      var (notRep1, d4) :- Step(s, d3, Model(IS_REP_G1 + st));
      if !notRep1 then Got(1, d4)
      else
        var (isRep3, d5) :- Step(s, d4, Model(IS_REP_G2 + st));
        Got(if isRep3 then 3 else 2, d5)
  }

  function RepKindDec(s: seq<Byte>, d: Dec, st: nat, ps: nat): (r: Outcome<Packet>)
    requires DecOk(d) && BASE_SIZE <= |d.probs| && st < NUM_STATES && ps < 16
    ensures r.Got? ==> Ready(r.dec, |d.probs|) && PacketOk(r.value) && (r.value.ShortRep? || r.value.Rep?)
    ensures r.Halt? ==> r.why == UnexpectedEof
  {
    var (w, d1) :- RepSelDec(s, d, st, ps);
    if w == SHORT then Got(ShortRep, d1) else RepDec(s, d1, ps, w)
  }

  function MatchDec(s: seq<Byte>, d: Dec, ps: nat): (r: Outcome<Packet>)
    requires DecOk(d) && BASE_SIZE <= |d.probs| && ps < 16
    ensures r.Got? ==> Ready(r.dec, |d.probs|) && PacketOk(r.value) && r.value.Match?
    ensures r.Halt? ==> r.why == UnexpectedEof
  {
    var (len, d1) :- LenDec(s, d, LEN_CODER, ps);
    var (dist, d2) :- DistDec(s, d1, len);
    Got(Match(len, dist), d2)
  }

  function RepDec(s: seq<Byte>, d: Dec, ps: nat, which: nat): (r: Outcome<Packet>)
    requires DecOk(d) && BASE_SIZE <= |d.probs| && ps < 16 && which < 4
    ensures r.Got? ==> Ready(r.dec, |d.probs|) && PacketOk(r.value) && r.value.Rep? && r.value.which == which
    ensures r.Halt? ==> r.why == UnexpectedEof
  {
    var (len, d1) :- LenDec(s, d, REP_LEN_CODER, ps);
    Got(Rep(which, len), d1)
  }

  /** The bits that tell which repeat it is... */
  function RepTrace(st: nat, ps: nat, p: Packet): seq<Sym>
    requires p.ShortRep? || p.Rep?
  {
    if p.ShortRep? then [M(IS_REP_G0 + st, false)] + [M(Rep0LongAt(st, ps), false)]
    else if p.which == 0 then [M(IS_REP_G0 + st, false)] + [M(Rep0LongAt(st, ps), true)]
    else [M(IS_REP_G0 + st, true)] +
         (if p.which == 1 then [M(IS_REP_G1 + st, false)]
          else [M(IS_REP_G1 + st, true)] + [M(IS_REP_G2 + st, p.which == 3)])
  }

  /** ... the bits that tell a packet's kind... */
  function KindTrace(st: nat, ps: nat, p: Packet): seq<Sym> {
    match p
    case Lit(_) => [M(IsMatchAt(st, ps), false)]
    case Match(_, _) => [M(IsMatchAt(st, ps), true)] + [M(IS_REP + st, false)]
    case _ => [M(IsMatchAt(st, ps), true)] + ([M(IS_REP + st, true)] + RepTrace(st, ps, p))
  }

  /** ... and its contents. */
  function BodyTrace(pr: Props, st: nat, c: Context, p: Packet): seq<Sym>
    requires PropsOk(pr) && PacketOk(p)
  {
    LitBase(pr, c, NumProbs(pr));
    var ps := PosState(pr, c.pos);
    match p
    case Lit(b) => LitTrace(LiteralAt(LitContext(pr, c.pos, c.prev)), st >= NUM_LIT_STATES, c.mb, b)
    case Match(len, dist) => LenTrace(LEN_CODER, ps, len) + DistTrace(len, dist)
    case ShortRep => []
    case Rep(_, len) => LenTrace(REP_LEN_CODER, ps, len)
  }

  function PacketTrace(pr: Props, st: nat, c: Context, p: Packet): seq<Sym>
    requires PropsOk(pr) && PacketOk(p)
  {
    KindTrace(st, PosState(pr, c.pos), p) + BodyTrace(pr, st, c, p)
  }

  lemma PacketAsks(pr: Props, st: nat, c: Context, p: Packet)
    requires PropsOk(pr) && PacketOk(p) && st < NUM_STATES
    ensures AskAll(KindTrace(st, PosState(pr, c.pos), p), NumProbs(pr))
    ensures AskAll(BodyTrace(pr, st, c, p), NumProbs(pr))
    ensures AskAll(PacketTrace(pr, st, c, p), NumProbs(pr))
  {
    hide LitTrace, LenTrace, DistTrace;
    var n := NumProbs(pr);
    PosStateBound(pr, c.pos);
    LitBase(pr, c, n);
    match p {
      case Lit(b) => LitAsks(LiteralAt(LitContext(pr, c.pos, c.prev)), st >= NUM_LIT_STATES, c.mb, b, n);
      case Match(len, dist) =>
        LenAsks(LEN_CODER, PosState(pr, c.pos), len, n);
        DistAsks(len, dist, n);
      case ShortRep =>
      case Rep(_, len) => LenAsks(REP_LEN_CODER, PosState(pr, c.pos), len, n);
    }
  }

  // ---------- decoding a packet's bits gives the packet ----------

  lemma ReplayOne(s: seq<Byte>, d: Dec, q: Query, b: bool)
    requires DecOk(d) && Asks(q, d.probs)
    ensures AskAll([Sym(q, b)], |d.probs|)
    ensures Replay(s, d, [Sym(q, b)]).Got? ==>
              var r := Step(s, d, q); r.Got? && r.value == b && r.dec == Replay(s, d, [Sym(q, b)]).dec
  {
    ReplayFirst(s, d, q, b, []);
    assert [Sym(q, b)] + [] == [Sym(q, b)];
  }

  lemma MatchRoundTrip(s: seq<Byte>, d: Dec, ps: nat, len: nat, dist: nat)
    requires DecOk(d) && BASE_SIZE <= |d.probs| && ps < 16 && len < 272 && dist < U32
    requires AskAll(LenTrace(LEN_CODER, ps, len) + DistTrace(len, dist), |d.probs|)
    requires Replay(s, d, LenTrace(LEN_CODER, ps, len) + DistTrace(len, dist)).Got?
    ensures MatchDec(s, d, ps) == Got(Match(len, dist), Replay(s, d, LenTrace(LEN_CODER, ps, len) + DistTrace(len, dist)).dec)
  {
    hide Replay, LenTrace, DistTrace, LenDec, DistDec;
    var t1, t2 := LenTrace(LEN_CODER, ps, len), DistTrace(len, dist);
    LenAsks(LEN_CODER, ps, len, |d.probs|);
    DistAsks(len, dist, |d.probs|);
    ReplayParts(s, d, t1, t2);
    LenRoundTrip(s, d, LEN_CODER, ps, len);
    DistRoundTrip(s, Replay(s, d, t1).dec, len, dist);
  }

  lemma RepRoundTrip(s: seq<Byte>, d: Dec, ps: nat, which: nat, len: nat)
    requires DecOk(d) && BASE_SIZE <= |d.probs| && ps < 16 && which < 4 && len < 272
    requires AskAll(LenTrace(REP_LEN_CODER, ps, len), |d.probs|)
    requires Replay(s, d, LenTrace(REP_LEN_CODER, ps, len)).Got?
    ensures RepDec(s, d, ps, which) == Got(Rep(which, len), Replay(s, d, LenTrace(REP_LEN_CODER, ps, len)).dec)
  {
    hide Replay, LenTrace, LenDec;
    LenRoundTrip(s, d, REP_LEN_CODER, ps, len);
  }

  /** Where RepKindDec stands after the bits that tell which repeat it is. */
  lemma RepSteps(s: seq<Byte>, d: Dec, st: nat, ps: nat, p: Packet)
    requires DecOk(d) && BASE_SIZE <= |d.probs| && st < NUM_STATES && ps < 16 && PacketOk(p) && (p.ShortRep? || p.Rep?)
    requires AskAll(RepTrace(st, ps, p), |d.probs|) && Replay(s, d, RepTrace(st, ps, p)).Got?
    ensures var e := Replay(s, d, RepTrace(st, ps, p)).dec;
            RepKindDec(s, d, st, ps) == if p.ShortRep? then Got(ShortRep, e) else RepDec(s, e, ps, p.which)
  {
    hide Replay, Step, RepDec, DecOk;
    assert PacketOk(p);
    var q3, q4, q5, q6 := Model(IS_REP_G0 + st), Model(Rep0LongAt(st, ps)), Model(IS_REP_G1 + st), Model(IS_REP_G2 + st);
    if p.ShortRep? || p.which == 0 {
      ReplayFirst(s, d, q3, false, [Sym(q4, p.Rep?)]);
      ReplayOne(s, Step(s, d, q3).dec, q4, p.Rep?);
    } else if p.which == 1 {
      ReplayFirst(s, d, q3, true, [Sym(q5, false)]);
      ReplayOne(s, Step(s, d, q3).dec, q5, false);
    } else {
      var b := p.which == 3;
      ReplayFirst(s, d, q3, true, [Sym(q5, true)] + [Sym(q6, b)]);
      ReplayFirst(s, Step(s, d, q3).dec, q5, true, [Sym(q6, b)]);
      ReplayOne(s, Step(s, Step(s, d, q3).dec, q5).dec, q6, b);
    }
  }

  /** Where PacketDec stands after the bits that tell the packet's kind. */
  lemma KindSteps(s: seq<Byte>, d: Dec, pr: Props, st: nat, c: Context, p: Packet)
    requires Ready(d, NumProbs(pr)) && PropsOk(pr) && st < NUM_STATES && PacketOk(p)
    requires AskAll(KindTrace(st, PosState(pr, c.pos), p), NumProbs(pr))
    requires Replay(s, d, KindTrace(st, PosState(pr, c.pos), p)).Got?
    ensures PosState(pr, c.pos) < 16 && 0 <= LitContext(pr, c.pos, c.prev)
    ensures LITERAL <= LiteralAt(LitContext(pr, c.pos, c.prev)) && LiteralAt(LitContext(pr, c.pos, c.prev)) + LIT_SIZE <= NumProbs(pr)
    ensures var e := Replay(s, d, KindTrace(st, PosState(pr, c.pos), p)).dec;
            match p
            case Lit(_) =>
              var r := LitDec(s, e, LiteralAt(LitContext(pr, c.pos, c.prev)), st >= NUM_LIT_STATES, c.mb);
              PacketDec(s, d, pr, st, c) == if r.Got? then Got(Lit(r.value), r.dec) else Halt(r.why)
            case Match(_, _) => PacketDec(s, d, pr, st, c) == MatchDec(s, e, PosState(pr, c.pos))
            case ShortRep => PacketDec(s, d, pr, st, c) == Got(ShortRep, e)
            case Rep(w, _) => PacketDec(s, d, pr, st, c) == RepDec(s, e, PosState(pr, c.pos), w)
  {
    hide Replay, Step, LitDec, MatchDec, RepDec, RepKindDec, RepTrace, PosState, LitContext, LiteralAt, DecOk;
    PosStateBound(pr, c.pos);
    LitBase(pr, c, NumProbs(pr));
    var ps := PosState(pr, c.pos);
    var q1, q2 := Model(IsMatchAt(st, ps)), Model(IS_REP + st);
    match p {
      case Lit(_) =>
        ReplayOne(s, d, q1, false);
      case Match(_, _) =>
        ReplayFirst(s, d, q1, true, [Sym(q2, false)]);
        ReplayOne(s, Step(s, d, q1).dec, q2, false);
      case _ =>
        RepAsks(st, ps, p, |d.probs|);
        ReplayFirst(s, d, q1, true, [Sym(q2, true)] + RepTrace(st, ps, p));
        ReplayFirst(s, Step(s, d, q1).dec, q2, true, RepTrace(st, ps, p));
        RepSteps(s, Step(s, Step(s, d, q1).dec, q2).dec, st, ps, p);
    }
  }

  lemma RepAsks(st: nat, ps: nat, p: Packet, n: nat)
    requires (p.ShortRep? || p.Rep?) && st < NUM_STATES && ps < 16 && BASE_SIZE <= n
    ensures AskAll(RepTrace(st, ps, p), n)
  {}

  lemma PacketRoundTrip(s: seq<Byte>, d: Dec, pr: Props, st: nat, c: Context, p: Packet)
    requires Ready(d, NumProbs(pr)) && PropsOk(pr) && st < NUM_STATES && PacketOk(p)
    requires AskAll(PacketTrace(pr, st, c, p), NumProbs(pr))
    requires Replay(s, d, PacketTrace(pr, st, c, p)).Got?
    ensures PacketDec(s, d, pr, st, c) == Got(p, Replay(s, d, PacketTrace(pr, st, c, p)).dec)
  {
    hide Replay, LitTrace, LenTrace, DistTrace, PacketDec, LitDec, MatchDec, RepDec, PosState, LitContext, LiteralAt, KindTrace;
    PacketAsks(pr, st, c, p);
    ReplayParts(s, d, KindTrace(st, PosState(pr, c.pos), p), BodyTrace(pr, st, c, p));
    KindSteps(s, d, pr, st, c, p);
    var e := Replay(s, d, KindTrace(st, PosState(pr, c.pos), p)).dec;
    match p {
      case Lit(b) => LitRoundTrip(s, e, LiteralAt(LitContext(pr, c.pos, c.prev)), st >= NUM_LIT_STATES, c.mb, b);
      case Match(len, dist) => MatchRoundTrip(s, e, PosState(pr, c.pos), len, dist);
      case ShortRep => ReplayNone(s, e);
      case Rep(w, len) => RepRoundTrip(s, e, PosState(pr, c.pos), w, len);
    }
  }
}
