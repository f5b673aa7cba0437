/** Whole streams: packets against the sliding window, the main loop, and decoding as the inverse
    of encoding. */
module LzmaRun {
  import opened Bits
  import opened RangeCoder
  import opened LzmaFormat
  import opened LzmaCodec
  import opened LzmaStream

  // ---------- the window ----------

  /** The byte `dist` back. */
  function Back(hist: seq<Byte>, dist: nat): Byte
    requires 1 <= dist <= |hist|
  {
    hist[|hist| - dist]
  }

  /** A match: one byte at a time, each the byte `dist` back, so that it may read what it wrote. */
  function Copy(hist: seq<Byte>, dist: nat, n: nat): (r: seq<Byte>)
    requires 1 <= dist <= |hist|
    ensures |r| == |hist| + n && hist <= r
    decreases n
  {
    if n == 0 then hist else Copy(hist + [Back(hist, dist)], dist, n - 1)
  }

  /** Every byte of a match equals the byte `dist` back, also where the copy overlaps itself. */
  lemma {:induction false} CopyRepeats(hist: seq<Byte>, dist: nat, n: nat, i: nat)
    requires 1 <= dist <= |hist| <= i < |hist| + n
    ensures Copy(hist, dist, n)[i] == Copy(hist, dist, n)[i - dist]
    decreases n
  {
    var h := hist + [Back(hist, dist)];
    if i == |hist| {
      assert h <= Copy(h, dist, n - 1);
    } else {
      CopyRepeats(h, dist, n - 1, i);
    }
  }

  lemma CopyNone(hist: seq<Byte>, dist: nat)
    requires 1 <= dist <= |hist|
    ensures Copy(hist, dist, 0) == hist
  {}

  lemma {:induction false} CopyMore(hist: seq<Byte>, dist: nat, n: nat)
    requires 1 <= dist <= |hist|
    ensures Copy(hist, dist, n + 1) == Copy(hist, dist, n) + [Back(Copy(hist, dist, n), dist)]
    decreases n
  {
    if n > 0 { CopyMore(hist + [Back(hist, dist)], dist, n - 1); }
  }

  // ---------- what a packet does ----------

  function LitState(st: nat): nat { if st < 4 then 0 else if st < 10 then st - 3 else st - 6 }

  function MatchState(st: nat): nat { if st < NUM_LIT_STATES then 7 else 10 }

  function RepState(st: nat): nat { if st < NUM_LIT_STATES then 8 else 11 }

  function ShortRepState(st: nat): nat { if st < NUM_LIT_STATES then 9 else 11 }

  /** The repeat distances after a packet. */
  function NextReps(cs: CState, p: Packet): CState {
    match p
    case Match(_, dist) => CState(MatchState(cs.state), dist + 1, cs.rep0, cs.rep1, cs.rep2)
    case ShortRep => cs.(state := ShortRepState(cs.state))
    case Rep(w, _) =>
      var st := RepState(cs.state);
      if w == 0 then cs.(state := st)
      else if w == 1 then CState(st, cs.rep1, cs.rep0, cs.rep2, cs.rep3)
      else if w == 2 then CState(st, cs.rep2, cs.rep0, cs.rep1, cs.rep3)
      else CState(st, cs.rep3, cs.rep0, cs.rep1, cs.rep2)
    case Lit(_) => cs.(state := LitState(cs.state))
  }

  /** Packets and what they are played against: the window so far, dictionary and output sizes. */
  datatype After = Next(cs: CState, hist: seq<Byte>) | End | Stop(why: Why, hist: seq<Byte>)

  function CopyOut(cs: CState, hist: seq<Byte>, n: nat, dst: nat): After
    requires 1 <= cs.rep0 <= |hist| < dst
  {
    if n <= dst - |hist| then Next(cs, Copy(hist, cs.rep0, n))
    else Stop(Corrupt, Copy(hist, cs.rep0, dst - |hist|))
  }

  function Apply(cs: CState, hist: seq<Byte>, p: Packet, dict: nat, dst: nat): After
    requires |hist| < dst
  {
    var nx := NextReps(cs, p);
    match p
    case Lit(b) => Next(nx, hist + [b])
    case Match(len, dist) =>
      if dist + 1 == U32 then End
      else if dist + 1 > dict || dist + 1 > |hist| then Stop(Corrupt, hist)
      else CopyOut(nx, hist, len + 2, dst)
    case ShortRep =>
      if 1 <= nx.rep0 <= |hist| then Next(nx, hist + [Back(hist, nx.rep0)]) else Stop(OutOfBuffer, hist)
    case Rep(_, len) =>
      if 1 <= nx.rep0 <= |hist| then CopyOut(nx, hist, len + 2, dst) else Stop(OutOfBuffer, hist)
  }

  predicate InWindow(rep: nat, hist: seq<Byte>, dict: nat) {
    1 <= rep <= dict && rep <= |hist|
  }

  /** The packet state is one of twelve; and from the first byte on, all four repeat distances lie
      within the output so far and within the dictionary. */
  predicate StateOk(cs: CState, hist: seq<Byte>, dict: nat) {
    && cs.state < NUM_STATES && dict >= 1
    && (hist == [] ==> cs == CState(0, 1, 1, 1, 1))
    && (hist != [] ==>
          && InWindow(cs.rep0, hist, dict) && InWindow(cs.rep1, hist, dict)
          && InWindow(cs.rep2, hist, dict) && InWindow(cs.rep3, hist, dict))
  }

  /** Every packet keeps the state, and only ever adds to the output; a read before the start of the
      output happens exactly when the very first packet is a repeat. */
  lemma ApplyKeeps(cs: CState, hist: seq<Byte>, p: Packet, dict: nat, dst: nat)
    requires StateOk(cs, hist, dict) && PacketOk(p) && |hist| < dst
    ensures match Apply(cs, hist, p, dict, dst)
            case Next(cs', hist') => StateOk(cs', hist', dict) && hist < hist' && |hist'| <= dst
            case End => p.Match? && p.dist == U32 - 1
            case Stop(why, hist') =>
              && hist <= hist' && |hist'| <= dst
              && (why == OutOfBuffer <==> hist == [] && (p.ShortRep? || p.Rep?))
              && (why == Corrupt || why == OutOfBuffer)
  {}

  // ---------- the main loop ----------

  /** What the next packet's coding depends on. */
  function Ctx(cs: CState, hist: seq<Byte>): Context {
    Context(|hist|,
            if hist == [] then 0 else hist[|hist| - 1],
            if 1 <= cs.rep0 <= |hist| then Back(hist, cs.rep0) else 0)
  }

  datatype Result = Done(out: seq<Byte>, marker: bool, dec: Dec) | Stopped(why: Why, out: seq<Byte>)

  function Run(s: seq<Byte>, d: Dec, pr: Props, dict: nat, dst: nat, cs: CState, hist: seq<Byte>): Result
    requires Ready(d, NumProbs(pr)) && PropsOk(pr) && StateOk(cs, hist, dict)
    decreases dst - |hist|
  {
    if |hist| >= dst then Done(hist, false, d)
    else
      match PacketDec(s, d, pr, cs.state, Ctx(cs, hist))
      case Halt(why) => Stopped(why, hist)
      case Got(p, d1) =>
        ApplyKeeps(cs, hist, p, dict, dst);
        match Apply(cs, hist, p, dict, dst)
        case Next(cs', hist') => Run(s, d1, pr, dict, dst, cs', hist')
        case End => Done(hist, true, d1)
        case Stop(why, hist') => Stopped(why, hist')
  }

  function Start(): CState { CState(0, 1, 1, 1, 1) }

  /** Output only grows; and a run that is done has exactly dst bytes unless an end marker stopped it. */
  lemma {:induction false} RunOutput(s: seq<Byte>, d: Dec, pr: Props, dict: nat, dst: nat, cs: CState, hist: seq<Byte>)
    requires Ready(d, NumProbs(pr)) && PropsOk(pr) && StateOk(cs, hist, dict) && |hist| <= dst
    ensures var r := Run(s, d, pr, dict, dst, cs, hist);
            && hist <= r.out && |r.out| <= dst
            && (r.Done? && !r.marker ==> |r.out| == dst)
            && (hist != [] ==> !(r.Stopped? && r.why == OutOfBuffer))
    decreases dst - |hist|
  {
    if |hist| < dst {
      var x := PacketDec(s, d, pr, cs.state, Ctx(cs, hist));
      if x.Got? {
        ApplyKeeps(cs, hist, x.value, dict, dst);
        var a := Apply(cs, hist, x.value, dict, dst);
        if a.Next? { RunOutput(s, x.dec, pr, dict, dst, a.cs, a.hist); }
      }
    }
  }

  // ---------- the encoder ----------

  /** The packets drive the output from hist to exactly out: all of dst, or up to an end marker. */
  predicate Drives(cs: CState, hist: seq<Byte>, ps: seq<Packet>, dict: nat, dst: nat, out: seq<Byte>)
    decreases ps
  {
    if ps == [] then |hist| >= dst && out == hist
    else
      && |hist| < dst
      && PacketOk(ps[0])
      && match Apply(cs, hist, ps[0], dict, dst)
         case Next(cs', hist') => Drives(cs', hist', ps[1..], dict, dst, out)
         case End => ps[1..] == [] && out == hist
         case Stop(_, _) => false
  }

  /** The bits of a sequence of packets. */
  function StreamTrace(pr: Props, cs: CState, hist: seq<Byte>, ps: seq<Packet>, dict: nat, dst: nat): seq<Sym>
    requires PropsOk(pr) && forall i :: 0 <= i < |ps| ==> PacketOk(ps[i])
    decreases ps
  {
    if ps == [] || |hist| >= dst then []
    else
      PacketTrace(pr, cs.state, Ctx(cs, hist), ps[0]) +
      match Apply(cs, hist, ps[0], dict, dst)
      case Next(cs', hist') => StreamTrace(pr, cs', hist', ps[1..], dict, dst)
      case _ => []
  }

  lemma {:induction false} StreamAsks(pr: Props, cs: CState, hist: seq<Byte>, ps: seq<Packet>, dict: nat, dst: nat)
    requires PropsOk(pr) && StateOk(cs, hist, dict) && forall i :: 0 <= i < |ps| ==> PacketOk(ps[i])
    ensures AskAll(StreamTrace(pr, cs, hist, ps, dict, dst), NumProbs(pr))
    decreases ps
  {
    hide PacketTrace, Apply, StateOk;
    if ps != [] && |hist| < dst {
      ApplyKeeps(cs, hist, ps[0], dict, dst);
      StateSmall(cs, hist, dict);
      PacketAsks(pr, cs.state, Ctx(cs, hist), ps[0]);
      var a := Apply(cs, hist, ps[0], dict, dst);
      if a.Next? { StreamAsks(pr, a.cs, a.hist, ps[1..], dict, dst); }
    }
  }

  lemma StateSmall(cs: CState, hist: seq<Byte>, dict: nat)
    requires StateOk(cs, hist, dict)
    ensures cs.state < NUM_STATES
  {}

  /** Decoding the bits of packets that drive the output to `out` produces `out`. */
  lemma {:induction false} StreamRoundTrip(s: seq<Byte>, d: Dec, pr: Props, cs: CState, hist: seq<Byte>,
                                           ps: seq<Packet>, dict: nat, dst: nat, out: seq<Byte>)
    requires Ready(d, NumProbs(pr)) && PropsOk(pr) && StateOk(cs, hist, dict)
    requires forall i :: 0 <= i < |ps| ==> PacketOk(ps[i])
    requires Drives(cs, hist, ps, dict, dst, out)
    requires AskAll(StreamTrace(pr, cs, hist, ps, dict, dst), NumProbs(pr))
    requires Replay(s, d, StreamTrace(pr, cs, hist, ps, dict, dst)).Got?
    ensures var r := Run(s, d, pr, dict, dst, cs, hist);
            r.Done? && r.out == out && r.dec == Replay(s, d, StreamTrace(pr, cs, hist, ps, dict, dst)).dec
    decreases ps
  {
    hide Replay, PacketTrace, PacketDec, Apply, StateOk, DecOk, AskAll;
    if ps == [] {
      ReplayNone(s, d);
    } else {
      StateSmall(cs, hist, dict);
      var c := Ctx(cs, hist);
      var t1 := PacketTrace(pr, cs.state, c, ps[0]);
      var a := Apply(cs, hist, ps[0], dict, dst);
      var t2 := if a.Next? then StreamTrace(pr, a.cs, a.hist, ps[1..], dict, dst) else [];
      ApplyKeeps(cs, hist, ps[0], dict, dst);
      PacketAsks(pr, cs.state, c, ps[0]);
      assert StreamTrace(pr, cs, hist, ps, dict, dst) == t1 + t2;
      if a.Next? { StreamAsks(pr, a.cs, a.hist, ps[1..], dict, dst); } else { NoAsks(|d.probs|); }
      ReplayParts(s, d, t1, t2);
      PacketRoundTrip(s, d, pr, cs.state, c, ps[0]);
      var d1 := Replay(s, d, t1).dec;
      if a.Next? {
        StreamRoundTrip(s, d1, pr, a.cs, a.hist, ps[1..], dict, dst, out);
      } else {
        ReplayNone(s, d1);
      }
    }
  }

  lemma NoAsks(n: nat)
    ensures AskAll([], n)
  {}
}
