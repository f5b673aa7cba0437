/** What a stream of packets means, as functions of the packets alone: the packet state, the four repeat
    distances, the output and the code; and that the machine's are these. */
module LzmaMeaning {
  import opened Bits
  import opened RangeCoder
  import opened LzmaFormat
  import opened LzmaCodec
  import opened LzmaStream
  import opened LzmaRun
  import opened LzmaCode
  import opened LzmaFile

  // ---------- the state ----------

  /** How many literals the packets end in. */
  function TrailingLiterals(ps: seq<Packet>): (n: nat)
    ensures n <= |ps|
    decreases ps
  {
    if ps == [] || !Last(ps).Lit? then 0 else 1 + TrailingLiterals(Front(ps))
  }

  function Last<T>(s: seq<T>): T
    requires s != []
  {
    s[|s| - 1]
  }

  function Front<T>(s: seq<T>): seq<T>
    requires s != []
  {
    s[..|s| - 1]
  }

  /** The last copy before the literals at the end decides the state: a match, a repeat or a short repeat,
      after a literal (or first of all) or after another copy. The literals step it towards 0, reached
      with the third at the latest. */
  function StateAfter(ps: seq<Packet>): nat {
    var n := TrailingLiterals(ps);
    var c := |ps| - n;
    if c == 0 || n >= 3 then 0
    else
      var afterLiteral := c == 1 || ps[c - 2].Lit?;
      var kind := if ps[c - 1].Match? then 0 else if afterLiteral && ps[c - 1].ShortRep? then 2 else 1;
      if n == 0 then (if afterLiteral then 7 else 10) + kind
      else if n == 1 then 4 + kind
      else 1 + kind
  }

  // ---------- the distances ----------

  function Reps(cs: CState): seq<nat> { [cs.rep0, cs.rep1, cs.rep2, cs.rep3] }

  /** A match puts its distance in front and drops the last; a repeat moves its own to the front. */
  function Moved(r: seq<nat>, p: Packet): (r': seq<nat>)
    requires |r| == 4 && PacketOk(p)
    ensures |r'| == 4
  {
    match p
    case Match(_, dist) => [dist + 1] + r[..3]
    case Rep(w, _) => [r[w]] + r[..w] + r[w + 1..]
    case _ => r
  }

  function RepsAfter(ps: seq<Packet>): (r: seq<nat>)
    requires forall i :: 0 <= i < |ps| ==> PacketOk(ps[i])
    ensures |r| == 4
    decreases ps
  {
    if ps == [] then [1, 1, 1, 1] else Moved(RepsAfter(Front(ps)), Last(ps))
  }

  // ---------- the output ----------

  predicate EndMarker(p: Packet) { p.Match? && p.dist == U32 - 1 }

  /** A literal adds its byte; a copy adds the last `d` bytes over and over, cut at its length. */
  function Extended(o: seq<Byte>, p: Packet, d: nat): seq<Byte> {
    if p.Lit? then o + [p.b]
    else if EndMarker(p) || !(1 <= d <= |o|) then o
    else o + Periodic(o[|o| - d..], if p.ShortRep? then 1 else p.len + 2)
  }

  function Output(ps: seq<Packet>): seq<Byte>
    requires forall i :: 0 <= i < |ps| ==> PacketOk(ps[i])
    decreases ps
  {
    if ps == [] then [] else Extended(Output(Front(ps)), Last(ps), RepsAfter(ps)[0])
  }

  function Periodic(s: seq<Byte>, n: nat): seq<Byte>
    requires s != []
  {
    seq(n, i requires 0 <= i < n => s[i % |s|])
  }

  /** A match that reads what it writes repeats its first bytes. */
  lemma CopyPeriodic(hist: seq<Byte>, dist: nat, n: nat)
    requires 1 <= dist <= |hist|
    ensures Copy(hist, dist, n) == hist + Periodic(hist[|hist| - dist..], n)
  {
    forall i | 0 <= i < n ensures Copy(hist, dist, n)[|hist| + i] == hist[|hist| - dist + i % dist] {
      CopyAt(hist, dist, n, i);
    }
  }

  lemma {:induction false} CopyAt(hist: seq<Byte>, dist: nat, n: nat, i: nat)
    requires 1 <= dist <= |hist| && i < n
    ensures Copy(hist, dist, n)[|hist| + i] == hist[|hist| - dist + i % dist]
    decreases i
  {
    hide Copy;
    CopyRepeats(hist, dist, n, |hist| + i);
    ModBack(i, dist);
    if i >= dist { CopyAt(hist, dist, n, i - dist); }
  }

  lemma ModBack(i: nat, d: nat)
    requires d >= 1
    ensures i < d ==> i % d == i
    ensures i >= d ==> i % d == (i - d) % d
  {
    if i >= d {
      var q, r := (i - d) / d, (i - d) % d;
      assert i == q * d + d + r;
      assert (q + 1) * d == q * d + d;
      DivMod(i, d, q + 1, r);
    } else {
      DivMod(i, d, 0, i);
    }
  }

  // ---------- the machine does what the packets mean ----------

  /** The machine after the packets, if each of them leaves room for the next. */
  function Played(ps: seq<Packet>, dict: nat, dst: nat): After
    decreases ps
  {
    if ps == [] then Next(Start(), [])
    else
      match Played(Front(ps), dict, dst)
      case Next(cs, hist) => if |hist| < dst then Apply(cs, hist, Last(ps), dict, dst) else Stop(Corrupt, hist)
      case a => a
  }

  lemma StateStep(ps: seq<Packet>, cs: CState)
    requires ps != [] && cs.state == StateAfter(Front(ps))
    ensures NextReps(cs, Last(ps)).state == StateAfter(ps)
  {
  }

  lemma RepsStep(ps: seq<Packet>, cs: CState)
    requires ps != [] && forall i :: 0 <= i < |ps| ==> PacketOk(ps[i])
    requires Reps(cs) == RepsAfter(Front(ps))
    ensures Reps(NextReps(cs, Last(ps))) == RepsAfter(ps)
  {
    hide NextReps, Moved, Reps;
    assert PacketOk(Last(ps));
    RepsMove(cs, Last(ps));
  }

  lemma RepsMove(cs: CState, p: Packet)
    requires PacketOk(p)
    ensures Reps(NextReps(cs, p)) == Moved(Reps(cs), p)
  {
    if p.Rep? {
      if p.which == 0 { RepMoves(cs, 0, p.len); }
      else if p.which == 1 { RepMoves(cs, 1, p.len); }
      else if p.which == 2 { RepMoves(cs, 2, p.len); }
      else { RepMoves(cs, 3, p.len); }
    }
  }

  lemma RepMoves(cs: CState, w: nat, len: nat)
    requires PacketOk(Rep(w, len))
    ensures Reps(NextReps(cs, Rep(w, len))) == Moved(Reps(cs), Rep(w, len))
  {
    var r := Reps(cs);
    if w == 0 { assert r[..0] == [] && r[1..] == [cs.rep1, cs.rep2, cs.rep3]; }
    else if w == 1 { assert r[..1] == [cs.rep0] && r[2..] == [cs.rep2, cs.rep3]; }
    else if w == 2 { assert r[..2] == [cs.rep0, cs.rep1] && r[3..] == [cs.rep3]; }
    else { assert r[..3] == [cs.rep0, cs.rep1, cs.rep2] && r[4..] == []; }
  }

  lemma OutputStep(ps: seq<Packet>, cs: CState, hist: seq<Byte>, dict: nat, dst: nat)
    requires ps != [] && forall i :: 0 <= i < |ps| ==> PacketOk(ps[i])
    requires Reps(cs) == RepsAfter(Front(ps)) && hist == Output(Front(ps)) && |hist| < dst
    ensures match Apply(cs, hist, Last(ps), dict, dst)
            case Next(_, h) => h == Output(ps)
            case End => Output(ps) == hist
            case Stop(_, h) => h <= Output(ps)
  {
    hide Copy, RepsAfter, Apply, Extended, Moved, NextReps;
    RepsStep(ps, cs);
    assert PacketOk(Last(ps));
    assert NextReps(cs, Last(ps)).rep0 == Reps(NextReps(cs, Last(ps)))[0];
    ApplyExtends(cs, hist, Last(ps), dict, dst);
  }

  lemma ApplyExtends(cs: CState, hist: seq<Byte>, p: Packet, dict: nat, dst: nat)
    requires PacketOk(p) && |hist| < dst
    ensures var out := Extended(hist, p, NextReps(cs, p).rep0);
            match Apply(cs, hist, p, dict, dst)
            case Next(_, h) => h == out
            case End => out == hist
            case Stop(_, h) => h <= out
  {
    hide Copy, Periodic;
    var d := NextReps(cs, p).rep0;
    if 1 <= d <= |hist| {
      var n := if p.Match? || p.Rep? then p.len + 2 else 1;
      CopyPeriodic(hist, d, n);
      CopyOne(hist, d);
      if dst - |hist| < n { PeriodicPrefix(hist, d, dst - |hist|, n); }
    }
  }

  lemma PeriodicPrefix(hist: seq<Byte>, d: nat, k: nat, n: nat)
    requires 1 <= d <= |hist| && k <= n
    ensures Copy(hist, d, k) <= hist + Periodic(hist[|hist| - d..], n)
  {
    CopyPeriodic(hist, d, k);
  }

  lemma CopyOne(hist: seq<Byte>, dist: nat)
    requires 1 <= dist <= |hist|
    ensures Copy(hist, dist, 0) == hist
    ensures Copy(hist, dist, 1) == hist + [Back(hist, dist)]
  {
    CopyNone(hist, dist);
    CopyMore(hist, dist, 0);
  }

  /** After any packets the machine's state, distances and output are those the packets mean. */
  lemma {:induction false} PlayedMeaning(ps: seq<Packet>, dict: nat, dst: nat)
    requires dict >= 1 && (forall i :: 0 <= i < |ps| ==> PacketOk(ps[i])) && Played(ps, dict, dst).Next?
    ensures var a := Played(ps, dict, dst);
            && a.cs.state == StateAfter(ps) && Reps(a.cs) == RepsAfter(ps) && a.hist == Output(ps)
            && StateOk(a.cs, a.hist, dict)
    decreases ps
  {
    hide Apply, NextReps, StateAfter, Reps, StateOk;
    if ps == [] {
      AtStart(dict);
    } else {
      PlayedMeaning(Front(ps), dict, dst);
      var b := Played(Front(ps), dict, dst);
      assert PacketOk(Last(ps));
      ApplyNext(b.cs, b.hist, Last(ps), dict, dst);
      ApplyKeeps(b.cs, b.hist, Last(ps), dict, dst);
      StateStep(ps, b.cs);
      RepsStep(ps, b.cs);
      OutputStep(ps, b.cs, b.hist, dict, dst);
    }
  }

  lemma AtStart(dict: nat)
    requires dict >= 1
    ensures Start().state == StateAfter([]) && Reps(Start()) == [1, 1, 1, 1] && StateOk(Start(), [], dict)
  {}

  lemma ApplyNext(cs: CState, hist: seq<Byte>, p: Packet, dict: nat, dst: nat)
    requires |hist| < dst
    ensures var a := Apply(cs, hist, p, dict, dst); a.Next? ==> a.cs == NextReps(cs, p)
  {}

  /** The state is below 7 exactly when the last packet is a literal or there is none, and three literals
      take every state to 0. */
  lemma StateOfLiterals(ps: seq<Packet>, st: nat)
    requires st < NUM_STATES
    ensures StateAfter(ps) < 7 <==> ps == [] || Last(ps).Lit?
    ensures LitState(LitState(LitState(st))) == 0
  {}

  /** What the next packet does, and exactly when it does not: a match at distance 2^32 ends the stream, one
      beyond the dictionary or the output is refused, a repeat before any output stops the decoder, and a
      copy that would overrun the size fills the output first. */
  lemma PacketEffect(ps: seq<Packet>, cs: CState, hist: seq<Byte>, dict: nat, dst: nat)
    requires ps != [] && dict >= 1 && forall i :: 0 <= i < |ps| ==> PacketOk(ps[i])
    requires Played(Front(ps), dict, dst) == Next(cs, hist) && |hist| < dst
    ensures var p, d, out := Last(ps), RepsAfter(ps)[0], Output(ps);
            Played(ps, dict, dst) ==
            if p.Match? && d == U32 then End
            else if p.Match? && (d > dict || d > |hist|) then Stop(Corrupt, hist)
            else if (p.ShortRep? || p.Rep?) && hist == [] then Stop(OutOfBuffer, [])
            else if |out| > dst then Stop(Corrupt, out[..dst])
            else Next(NextReps(cs, p), out)
  {
    hide Copy, RepsAfter, NextReps, StateOk, Output;
    PlayedMeaning(Front(ps), dict, dst);
    assert PacketOk(Last(ps));
    RepsStep(ps, cs);
    Effect(ps, cs, hist, dict, dst);
  }

  lemma Effect(ps: seq<Packet>, cs: CState, hist: seq<Byte>, dict: nat, dst: nat)
    requires ps != [] && dict >= 1 && forall i :: 0 <= i < |ps| ==> PacketOk(ps[i])
    requires Reps(cs) == RepsAfter(Front(ps)) && hist == Output(Front(ps)) && |hist| < dst && StateOk(cs, hist, dict)
    ensures var p, d, out := Last(ps), RepsAfter(ps)[0], Output(ps);
            Apply(cs, hist, p, dict, dst) ==
            if p.Match? && d == U32 then End
            else if p.Match? && (d > dict || d > |hist|) then Stop(Corrupt, hist)
            else if (p.ShortRep? || p.Rep?) && hist == [] then Stop(OutOfBuffer, [])
            else if |out| > dst then Stop(Corrupt, out[..dst])
            else Next(NextReps(cs, p), out)
  {
    hide Copy, RepsAfter;
    RepsStep(ps, cs);
    OutputStep(ps, cs, hist, dict, dst);
    var p, nx := Last(ps), NextReps(cs, Last(ps));
    assert PacketOk(p);
    assert nx.rep0 == Reps(nx)[0] == RepsAfter(ps)[0];
  }

  // ---------- legal streams ----------

  ghost predicate AllOk(ps: seq<Packet>) {
    forall i :: 0 <= i < |ps| ==> PacketOk(ps[i])
  }

  /** The last packet finds what it copies in the output and the dictionary, and room for it. */
  predicate Fitting(ps: seq<Packet>, dict: nat, dst: nat)
    requires ps != [] && forall i :: 0 <= i < |ps| ==> PacketOk(ps[i])
  {
    var o, p, d := Output(Front(ps)), Last(ps), RepsAfter(ps)[0];
    && |o| < dst
    && (!EndMarker(p) ==>
          && (p.Match? ==> d <= dict && d <= |o|)
          && (p.ShortRep? || p.Rep? ==> o != [])
          && |Output(ps)| <= dst)
  }

  /** From packet n on each fits, and they end in the end marker or with all of dst. */
  predicate Legal(ps: seq<Packet>, n: nat, dict: nat, dst: nat)
    requires forall i :: 0 <= i < |ps| ==> PacketOk(ps[i])
    decreases |ps| - n
  {
    if n >= |ps| then |Output(ps)| >= dst
    else
      && Fitting(ps[..n + 1], dict, dst)
      && if EndMarker(ps[n]) then n + 1 == |ps| else Legal(ps, n + 1, dict, dst)
  }

  lemma NextPlayed(ps: seq<Packet>, n: nat, dict: nat, dst: nat)
    requires n < |ps| && AllOk(ps) && dict >= 1 && Played(ps[..n], dict, dst).Next?
    ensures ps[n..][0] == ps[n] == Last(ps[..n + 1]) && ps[n..][1..] == ps[n + 1..] && Front(ps[..n + 1]) == ps[..n]
    ensures AllOk(ps[..n]) && AllOk(ps[..n + 1]) && PacketOk(ps[n])
    ensures var a, b := Played(ps[..n], dict, dst), Played(ps[..n + 1], dict, dst);
            && a.hist == Output(ps[..n])
            && (|a.hist| < dst ==>
                  && b == Apply(a.cs, a.hist, ps[n], dict, dst)
                  && (b.End? ==> EndMarker(ps[n]) && Output(ps[..n + 1]) == a.hist)
                  && (Fitting(ps[..n + 1], dict, dst) <==> b.Next? || b.End?)
                  && (b.Next? ==> !EndMarker(ps[n])))
  {
    hide Apply, Extended, RepsAfter, StateAfter, Output;
    assert AllOk(ps[..n]) && AllOk(ps[..n + 1]);
    assert Front(ps[..n + 1]) == ps[..n];
    PlayedMeaning(ps[..n], dict, dst);
    var a := Played(ps[..n], dict, dst);
    if |a.hist| < dst {
      PacketEffect(ps[..n + 1], a.cs, a.hist, dict, dst);
      FrontOf(ps[..n + 1]);
    }
  }

  lemma FrontOf(ps: seq<Packet>)
    requires ps != [] && AllOk(ps)
    ensures PacketOk(Last(ps)) && Last(ps).Match? ==> RepsAfter(ps)[0] == Last(ps).dist + 1
    ensures Output(ps) == Extended(Output(Front(ps)), Last(ps), RepsAfter(ps)[0])
    ensures EndMarker(Last(ps)) ==> Output(ps) == Output(Front(ps))
    ensures Last(ps).Lit? ==> |Output(ps)| == |Output(Front(ps))| + 1
  {}

  /** The packets the encoder may use, and what they produce, without the machine. */
  lemma {:induction false} DrivesWhenLegal(ps: seq<Packet>, n: nat, dict: nat, dst: nat, out: seq<Byte>)
    requires n <= |ps| && AllOk(ps) && dict >= 1 && Played(ps[..n], dict, dst).Next?
    ensures var a := Played(ps[..n], dict, dst);
            Drives(a.cs, a.hist, ps[n..], dict, dst, out) <==> Legal(ps, n, dict, dst) && out == Output(ps)
    decreases |ps| - n
  {
    hide Apply, Output, Played, RepsAfter, StateAfter, Fitting;
    var a := Played(ps[..n], dict, dst);
    if n == |ps| {
      assert ps[..n] == ps && ps[n..] == [];
      PlayedMeaning(ps, dict, dst);
    } else {
      NextPlayed(ps, n, dict, dst);
      if |a.hist| < dst {
        var b := Played(ps[..n + 1], dict, dst);
        if b.Next? { DrivesWhenLegal(ps, n + 1, dict, dst, out); }
        if b.End? && n + 1 == |ps| { assert ps[..n + 1] == ps; }
      } else {
        TooLate(ps[..n + 1], dict, dst);
      }
    }
  }

  lemma TooLate(ps: seq<Packet>, dict: nat, dst: nat)
    requires ps != [] && AllOk(ps) && |Output(Front(ps))| >= dst
    ensures !Fitting(ps, dict, dst)
  {}

  // ---------- the code of a stream ----------

  /** What the next packet's code depends on: how many bytes there are, the last, and the one at the front
      repeat distance. */
  function ContextAfter(ps: seq<Packet>): Context
    requires forall i :: 0 <= i < |ps| ==> PacketOk(ps[i])
  {
    var o, d := Output(ps), RepsAfter(ps)[0];
    Context(|o|, if o == [] then 0 else Last(o), if 1 <= d <= |o| then o[|o| - d] else 0)
  }

  /** The code of the packets from the n-th on. */
  function StreamCode(pr: Props, ps: seq<Packet>, n: nat): seq<Coded>
    requires PropsOk(pr) && forall i :: 0 <= i < |ps| ==> PacketOk(ps[i])
    decreases |ps| - n
  {
    if n >= |ps| then []
    else Code(pr, StateAfter(ps[..n]), ContextAfter(ps[..n]), ps[n]) + StreamCode(pr, ps, n + 1)
  }

  lemma ContextPlayed(ps: seq<Packet>, dict: nat, dst: nat)
    requires AllOk(ps) && dict >= 1 && Played(ps, dict, dst).Next?
    ensures var a := Played(ps, dict, dst); a.cs.state == StateAfter(ps) && Ctx(a.cs, a.hist) == ContextAfter(ps)
  {
    hide Output, RepsAfter, StateAfter;
    PlayedMeaning(ps, dict, dst);
    var a := Played(ps, dict, dst);
    assert a.cs.rep0 == Reps(a.cs)[0];
  }

  lemma {:induction false} StreamCoded(pr: Props, ps: seq<Packet>, n: nat, dict: nat, dst: nat, out: seq<Byte>)
    requires PropsOk(pr) && n <= |ps| && AllOk(ps) && dict >= 1 && Played(ps[..n], dict, dst).Next?
    requires var a := Played(ps[..n], dict, dst); Drives(a.cs, a.hist, ps[n..], dict, dst, out)
    ensures AllOk(ps[n..])
    ensures var a := Played(ps[..n], dict, dst);
            Codes(StreamTrace(pr, a.cs, a.hist, ps[n..], dict, dst), StreamCode(pr, ps, n))
    decreases |ps| - n
  {
    hide Apply, Output, Played, RepsAfter, StateAfter, Fitting, Codes, PacketTrace, Code, Ctx, ContextAfter;
    assert AllOk(ps[n..]);
    var a := Played(ps[..n], dict, dst);
    if n == |ps| {
      NoneCoded(0, 0);
    } else {
      NextPlayed(ps, n, dict, dst);
      ContextPlayed(ps[..n], dict, dst);
      var b := Played(ps[..n + 1], dict, dst);
      var t := if b.Next? then StreamTrace(pr, b.cs, b.hist, ps[n + 1..], dict, dst) else [];
      PacketCoded(pr, a.cs.state, Ctx(a.cs, a.hist), ps[n]);
      if b.Next? { StreamCoded(pr, ps, n + 1, dict, dst, out); } else { NoneCoded(0, 0); }
      CodesBoth(PacketTrace(pr, a.cs.state, Ctx(a.cs, a.hist), ps[n]), Code(pr, a.cs.state, Ctx(a.cs, a.hist), ps[n]),
                t, StreamCode(pr, ps, n + 1));
    }
  }

  lemma OneTrace(a: seq<Sym>, b: seq<Sym>, code: seq<Coded>)
    requires Codes(a, code) && Codes(b, code)
    ensures a == b
  {
    forall i | 0 <= i < |a| ensures a[i] == b[i] {
      SameSym(a[i], b[i], code[i]);
    }
  }

  lemma SameSym(x: Sym, y: Sym, c: Coded)
    requires Is(x, c) && Is(y, c)
    ensures x == y
  {}

  /** A file of the packets' code decodes to what the packets mean: any legal packets, any bytes in the
      interval of the bits that code them. */
  lemma FileMeaning(pr: Props, dict: nat, dst: nat, ps: seq<Packet>, tr: seq<Sym>, s: seq<Byte>)
    requires PropsOk(pr) && 1 <= dict < Scale(4) && dst < Scale(8)
    requires AllOk(ps) && Legal(ps, 0, dict, dst)
    requires Codes(tr, StreamCode(pr, ps, 0)) && AskAll(tr, NumProbs(pr))
    requires Contains(s, EncodeAll(InitialEnc(NumProbs(pr)), tr))
    ensures var r := Decoded(HeaderBytes(pr, dict, dst) + s);
            r.Done? && r.out == Output(ps)
  {
    hide Decoded, Drives, StreamTrace, StreamCode, Legal, Codes, EncodeAll, InitialEnc, Contains, Output, HeaderBytes, NumProbs;
    assert ps[..0] == [] && ps[0..] == ps;
    assert Played(ps[..0], dict, dst) == Next(Start(), []);
    DrivesWhenLegal(ps, 0, dict, dst, Output(ps));
    StreamCoded(pr, ps, 0, dict, dst, Output(ps));
    OneTrace(tr, StreamTrace(pr, Start(), [], ps, dict, dst), StreamCode(pr, ps, 0));
    FileRoundTrip(pr, dict, dst, ps, s, Output(ps));
  }

  // ---------- whatever the coded bytes ----------

  /** Whatever is decoded: a decoder that is done was given legal packets and has written what they mean, and
      one that stops has written the beginning of that. */
  lemma {:induction false} RunMeaning(s: seq<Byte>, d: Dec, pr: Props, dict: nat, dst: nat, done: seq<Packet>)
    returns (ps: seq<Packet>)
    requires Ready(d, NumProbs(pr)) && PropsOk(pr) && dict >= 1 && AllOk(done) && Played(done, dict, dst).Next?
    ensures StateOk(Played(done, dict, dst).cs, Played(done, dict, dst).hist, dict)
    ensures AllOk(ps) && done <= ps
    ensures var a := Played(done, dict, dst);
            match Run(s, d, pr, dict, dst, a.cs, a.hist)
            case Done(out, marker, _) =>
              && Legal(ps, |done|, dict, dst) && out == Output(ps)
              && (marker <==> |ps| > |done| && EndMarker(Last(ps)))
            case Stopped(_, out) => out <= Output(ps)
    decreases dst - |Played(done, dict, dst).hist|
  {
    hide PacketDec, Apply, StateOk, Output, Played, RepsAfter, StateAfter, Fitting, Ctx, Legal, NextReps, Reps, DecOk, EndMarker;
    PlayedMeaning(done, dict, dst);
    var a := Played(done, dict, dst);
    ps := done;
    if |a.hist| >= dst {
      EndsFull(done, dict, dst);
    } else {
      StateSmall(a.cs, a.hist, dict);
      var x := PacketDec(s, d, pr, a.cs.state, Ctx(a.cs, a.hist));
      if x.Got? {
        ps := done + [x.value];
        ApplyKeeps(a.cs, a.hist, x.value, dict, dst);
        NextDone(done, x.value, a.cs, a.hist, dict, dst);
        if Played(ps, dict, dst).Next? {
          ps := RunMeaning(s, x.dec, pr, dict, dst, ps);
          LegalBefore(done, x.value, ps, dict, dst);
        }
      }
    }
  }

  lemma EndsFull(ps: seq<Packet>, dict: nat, dst: nat)
    requires AllOk(ps) && |Output(ps)| >= dst
    ensures Legal(ps, |ps|, dict, dst)
  {}

  lemma NextDone(done: seq<Packet>, p: Packet, cs: CState, hist: seq<Byte>, dict: nat, dst: nat)
    requires AllOk(done) && PacketOk(p) && dict >= 1 && Played(done, dict, dst) == Next(cs, hist) && |hist| < dst
    ensures var ps := done + [p];
            && AllOk(ps) && Played(ps, dict, dst) == Apply(cs, hist, p, dict, dst) && Last(ps) == p
            && match Apply(cs, hist, p, dict, dst)
               case Next(_, _) => Fitting(ps, dict, dst) && !EndMarker(p)
               case End => Legal(ps, |done|, dict, dst) && Output(ps) == hist && EndMarker(p)
               case Stop(_, h) => h <= Output(ps)
  {
    hide Apply, Output, Played, RepsAfter, StateAfter, Fitting, NextReps, Reps, EndMarker;
    var ps := done + [p];
    assert ps[..|done|] == done && ps[..|done| + 1] == ps && Front(ps) == done;
    assert AllOk(ps);
    NextPlayed(ps, |done|, dict, dst);
    PlayedMeaning(done, dict, dst);
    OutputStep(ps, cs, hist, dict, dst);
  }

  lemma LegalBefore(done: seq<Packet>, p: Packet, ps: seq<Packet>, dict: nat, dst: nat)
    requires AllOk(ps) && done + [p] <= ps && AllOk(done + [p]) && Fitting(done + [p], dict, dst) && !EndMarker(p)
    ensures Legal(ps, |done| + 1, dict, dst) ==> Legal(ps, |done|, dict, dst)
    ensures |ps| > |done| && EndMarker(Last(ps)) ==> |ps| > |done| + 1
  {
    hide Fitting, EndMarker;
    assert ps[..|done| + 1] == done + [p] && ps[|done|] == p;
  }

  /** Whatever the file: one the decoder accepts holds legal packets, and the output is what they mean. */
  lemma AcceptedFile(file: seq<Byte>) returns (ps: seq<Packet>)
    requires Decoded(file).Done?
    ensures |file| >= HEADER && AllOk(ps) && Legal(ps, 0, DictSize(file), DstSize(file)) && Decoded(file).out == Output(ps)
    ensures Decoded(file).marker <==> ps != [] && EndMarker(Last(ps))
  {
    hide Run, Legal, Output, Init, EndMarker;
    var pr, s := PropsOf(file[0]), file[HEADER..];
    ps := RunMeaning(s, Init(s, NumProbs(pr)).dec, pr, DictSize(file), DstSize(file), []);
  }

  /** The thirteen header bytes: lc, lp and pb as digits, and two little-endian numbers, a dictionary of 0
      counting as 1. */
  lemma HeaderFields(file: seq<Byte>)
    requires |file| >= 13
    ensures var pr, h := PropsOf(file[0]), file;
            && h[0] == pr.lc + 9 * (pr.lp + 5 * pr.pb) && pr.lc < 9 && pr.lp < 5
            && DictSize(file) == (if Word(h[1], h[2], h[3], h[4]) == 0 then 1 else Word(h[1], h[2], h[3], h[4]))
            && DstSize(file) == Word(h[5], h[6], h[7], h[8]) + 0x1_0000_0000 * Word(h[9], h[10], h[11], h[12])
  {
    hide LittleEndian, Word;
    PropsDigits(file[0]);
    FourBytes(file[1..5]);
    EightBytes(file[5..13]);
    FourBytes(file[9..13]);
    assert file[5..13][4..] == file[9..13];
  }

  lemma PropsDigits(b: nat)
    ensures var pr := PropsOf(b); b == pr.lc + 9 * (pr.lp + 5 * pr.pb) && pr.lc < 9 && pr.lp < 5
  {}

  function Word(b0: int, b1: int, b2: int, b3: int): int {
    b0 + 0x100 * b1 + 0x1_0000 * b2 + 0x100_0000 * b3
  }

  lemma FourBytes(b: seq<Byte>)
    requires |b| == 4
    ensures LittleEndian(b) == Word(b[0], b[1], b[2], b[3])
  {
    assert LittleEndian(b[1..][1..]) == b[2] + 256 * LittleEndian(b[1..][1..][1..]);
    assert LittleEndian(b[1..][1..][1..]) == b[3] + 256 * LittleEndian(b[1..][1..][1..][1..]);
  }

  lemma EightBytes(b: seq<Byte>)
    requires |b| == 8
    ensures LittleEndian(b) == Word(b[0], b[1], b[2], b[3]) + 0x1_0000_0000 * LittleEndian(b[4..])
  {
    assert b[1..][1..][1..][1..] == b[4..];
    assert LittleEndian(b[1..]) == b[1] + 256 * LittleEndian(b[1..][1..]);
    assert LittleEndian(b[1..][1..]) == b[2] + 256 * LittleEndian(b[1..][1..][1..]);
    assert LittleEndian(b[1..][1..][1..]) == b[3] + 256 * LittleEndian(b[1..][1..][1..][1..]);
  }
}
