/** LZMA files: the header, the whole decoder as a function, and its inverse. */
module LzmaFile {
  import opened Bits
  import opened RangeCoder
  import opened LzmaFormat
  import opened LzmaCodec
  import opened LzmaStream
  import opened LzmaRun

  /** read_int: a little-endian number. */
  function LittleEndian(b: seq<Byte>): nat {
    if b == [] then 0 else b[0] + 256 * LittleEndian(b[1..])
  }

  function ToLittleEndian(v: nat, k: nat): (b: seq<Byte>)
    ensures |b| == k
  {
    if k == 0 then [] else [v % 256] + ToLittleEndian(v / 256, k - 1)
  }

  lemma {:induction false} LittleEndianRoundTrip(v: nat, k: nat)
    requires v < Scale(k)
    ensures LittleEndian(ToLittleEndian(v, k)) == v
  {
    if k > 0 { LittleEndianRoundTrip(v / 256, k - 1); }
  }

  const HEADER: nat := 13

  function PropsOf(b: nat): Props {
    Props(b % 9, b / 9 % 5, b / 45)
  }

  function PropsByte(pr: Props): nat {
    (pr.pb * 5 + pr.lp) * 9 + pr.lc
  }

  lemma PropsRoundTrip(pr: Props)
    requires PropsOk(pr)
    ensures PropsByte(pr) < 225 && PropsOf(PropsByte(pr)) == pr
  {}

  function DictSize(file: seq<Byte>): (n: nat)
    requires |file| >= HEADER
    ensures n >= 1
  {
    var n := LittleEndian(file[1..5]);
    if n == 0 then 1 else n
  }

  function DstSize(file: seq<Byte>): nat
    requires |file| >= HEADER
  {
    LittleEndian(file[5..13])
  }

  /** unlzma with the input in one piece. */
  function Decoded(file: seq<Byte>): Result {
    if |file| < HEADER then Stopped(UnexpectedEof, [])
    else if file[0] >= 225 then Stopped(BadHeader, [])
    else
      var pr := PropsOf(file[0]);
      var s := file[HEADER..];
      match Init(s, NumProbs(pr))
      case Halt(why) => Stopped(why, [])
      case Got(_, d) => Run(s, d, pr, DictSize(file), DstSize(file), Start(), [])
  }

  function HeaderBytes(pr: Props, dict: nat, dst: nat): (h: seq<Byte>)
    requires PropsOk(pr)
    ensures |h| == HEADER
  {
    [PropsByte(pr)] + ToLittleEndian(dict, 4) + ToLittleEndian(dst, 8)
  }

  lemma HeaderRoundTrip(pr: Props, dict: nat, dst: nat, s: seq<Byte>)
    requires PropsOk(pr) && 1 <= dict < Scale(4) && dst < Scale(8)
    ensures var file := HeaderBytes(pr, dict, dst) + s;
            && file[0] < 225 && PropsOf(file[0]) == pr && file[HEADER..] == s
            && DictSize(file) == dict && DstSize(file) == dst
  {
    var file := HeaderBytes(pr, dict, dst) + s;
    PropsRoundTrip(pr);
    LittleEndianRoundTrip(dict, 4);
    LittleEndianRoundTrip(dst, 8);
    assert file[1..5] == ToLittleEndian(dict, 4);
    assert file[5..13] == ToLittleEndian(dst, 8);
  }

  /** The interval of a stream of packets, from the first bit on. */
  ghost function StreamInterval(pr: Props, ps: seq<Packet>, dict: nat, dst: nat): Enc
    requires PropsOk(pr) && dict >= 1 && forall i :: 0 <= i < |ps| ==> PacketOk(ps[i])
  {
    StreamAsks(pr, Start(), [], ps, dict, dst);
    EncodeAll(InitialEnc(NumProbs(pr)), StreamTrace(pr, Start(), [], ps, dict, dst))
  }

  /** Decoding inverts encoding, from the header to the last byte: any file whose coded bytes lie in
      the interval of packets that drive the output to `out` decodes to `out`. */
  lemma FileRoundTrip(pr: Props, dict: nat, dst: nat, ps: seq<Packet>, s: seq<Byte>, out: seq<Byte>)
    requires PropsOk(pr) && 1 <= dict < Scale(4) && dst < Scale(8)
    requires forall i :: 0 <= i < |ps| ==> PacketOk(ps[i])
    requires Drives(Start(), [], ps, dict, dst, out)
    requires Contains(s, StreamInterval(pr, ps, dict, dst))
    ensures var r := Decoded(HeaderBytes(pr, dict, dst) + s);
            r.Done? && r.out == out
  {
    hide Replay, Run, StreamTrace, HeaderBytes, Drives, NumProbs, EncodeAll, Init, InitialEnc;
    var n, tr := NumProbs(pr), StreamTrace(pr, Start(), [], ps, dict, dst);
    HeaderRoundTrip(pr, dict, dst, s);
    StreamAsks(pr, Start(), [], ps, dict, dst);
    AllNest(s, InitialEnc(n), tr);
    InitSync(s, n);
    var d := Init(s, n).dec;
    DecoderInverts(s, d, InitialEnc(n), tr);
    StreamRoundTrip(s, d, pr, Start(), [], ps, dict, dst, out);
  }

  /** The output as literals only. */
  function Literals(out: seq<Byte>): (ps: seq<Packet>)
    ensures forall i :: 0 <= i < |ps| ==> PacketOk(ps[i])
    decreases out
  {
    if out == [] then [] else [Lit(out[0])] + Literals(out[1..])
  }

  lemma {:induction false} LiteralsDrive(cs: CState, hist: seq<Byte>, rest: seq<Byte>, dict: nat)
    ensures Drives(cs, hist, Literals(rest), dict, |hist| + |rest|, hist + rest)
    decreases rest
  {
    if rest == [] {
      assert hist + rest == hist;
    } else {
      var cs' := cs.(state := LitState(cs.state));
      LiteralsDrive(cs', hist + [rest[0]], rest[1..], dict);
      assert hist + [rest[0]] + rest[1..] == hist + rest;
      assert Literals(rest)[1..] == Literals(rest[1..]);
    }
  }

  /** Every byte string has an LZMA file, under every choice of parameters. */
  lemma EveryOutputHasFile(pr: Props, dict: nat, out: seq<Byte>) returns (file: seq<Byte>)
    requires PropsOk(pr) && 1 <= dict < Scale(4) && |out| < Scale(8)
    ensures Decoded(file).Done? && Decoded(file).out == out
  {
    hide Drives, Decoded, Run, EncodeAll, StreamTrace, HeaderBytes, InitialEnc, Literals, NumProbs, Contains;
    var ps := Literals(out);
    LiteralsDrive(Start(), [], out, dict);
    assert [] + out == out;
    StreamAsks(pr, Start(), [], ps, dict, |out|);
    var s := EveryTraceHasBytes(NumProbs(pr), StreamTrace(pr, Start(), [], ps, dict, |out|));
    FileRoundTrip(pr, dict, |out|, ps, s, out);
    file := HeaderBytes(pr, dict, |out|) + s;
  }

  /** Whatever the file: the output never exceeds the size in the header and is exactly that unless an
      end marker stops the run; and the decoder reads before its output only when it starts with a repeat. */
  lemma DecodedOutput(file: seq<Byte>)
    ensures |file| < HEADER ==> Decoded(file) == Stopped(UnexpectedEof, [])
    ensures |file| >= HEADER ==>
              var r := Decoded(file);
              && |r.out| <= DstSize(file)
              && (r.Done? && !r.marker ==> |r.out| == DstSize(file))
    ensures var r := Decoded(file);
            && (r.Stopped? && r.why == OutOfBuffer ==> r.out == [] && StartsWithRepeat(file))
            && (StartsWithRepeat(file) ==> r == Stopped(OutOfBuffer, []))
  {
    hide Run, PacketDec;
    if |file| >= HEADER && file[0] < 225 {
      var pr, s, dict, dst := PropsOf(file[0]), file[HEADER..], DictSize(file), DstSize(file);
      var x := Init(s, NumProbs(pr));
      if x.Got? {
        RunOutput(s, x.dec, pr, dict, dst, Start(), []);
        FirstPacket(s, x.dec, pr, dict, dst);
      }
    }
  }

  /** The first packet of the file is a repeat: the range coder's first two decisions say so. */
  ghost predicate StartsWithRepeat(file: seq<Byte>) {
    && |file| >= HEADER && file[0] < 225 && DstSize(file) > 0
    && var pr := PropsOf(file[0]);
    && var x := Init(file[HEADER..], NumProbs(pr));
    && x.Got?
    && var p := PacketDec(file[HEADER..], x.dec, pr, 0, Context(0, 0, 0));
    && p.Got? && (p.value.ShortRep? || p.value.Rep?)
  }

  /** There are such files, under every choice of parameters. */
  lemma RepeatFirst(pr: Props, dict: nat, dst: nat) returns (file: seq<Byte>)
    requires PropsOk(pr) && 1 <= dict < Scale(4) && 0 < dst < Scale(8)
    ensures StartsWithRepeat(file)
  {
    hide Replay, PacketTrace, PacketDec, NumProbs, Init, InitialEnc, EncodeAll, Contains, HeaderBytes, DstSize;
    var n, c := NumProbs(pr), Context(0, 0, 0);
    var tr := PacketTrace(pr, 0, c, ShortRep);
    PacketAsks(pr, 0, c, ShortRep);
    var s := EveryTraceHasBytes(n, tr);
    HeaderRoundTrip(pr, dict, dst, s);
    file := HeaderBytes(pr, dict, dst) + s;
    PacketRoundTrip(s, Init(s, n).dec, pr, 0, c, ShortRep);
  }

  lemma FirstPacket(s: seq<Byte>, d: Dec, pr: Props, dict: nat, dst: nat)
    requires Ready(d, NumProbs(pr)) && PropsOk(pr) && dict >= 1
    ensures var p := PacketDec(s, d, pr, 0, Context(0, 0, 0));
            var repeat := dst > 0 && p.Got? && (p.value.ShortRep? || p.value.Rep?);
            var r := Run(s, d, pr, dict, dst, Start(), []);
            && (r.Stopped? && r.why == OutOfBuffer ==> r.out == [] && repeat)
            && (repeat ==> r == Stopped(OutOfBuffer, []))
  {
    hide PacketDec;
    if dst > 0 {
      var p := PacketDec(s, d, pr, 0, Context(0, 0, 0));
      assert Ctx(Start(), []) == Context(0, 0, 0);
      if p.Got? {
        ApplyKeeps(Start(), [], p.value, dict, dst);
        var a := Apply(Start(), [], p.value, dict, dst);
        if a.Next? { RunOutput(s, p.dec, pr, dict, dst, a.cs, a.hist); }
      }
    }
  }
}
