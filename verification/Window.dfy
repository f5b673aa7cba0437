/** The writer of decompress.c with a flush callback: a circular buffer of dict_size bytes, which
    must read like the plain history that linear mode keeps. */
module Window {
  import opened RangeCoder
  import opened LzmaStream
  import opened LzmaRun

  /** The index peek_old_byte computes in 32-bit arithmetic. */
  function PeekIndex(bufferPos: nat, offs: nat, dict: nat): int {
    var pos := (bufferPos - offs) % U32;
    if pos >= dict then (pos + dict) % U32 else pos
  }

  /** The cell holding the byte `offs` back. */
  function Cell(bufferPos: nat, offs: nat, dict: nat): int {
    if offs <= bufferPos then bufferPos - offs else bufferPos - offs + dict
  }

  /** The 32-bit index is the right cell exactly when the step back does not wrap, or wraps by no
      more than 2^32 - dict_size. */
  lemma PeekIndexRight(bufferPos: nat, offs: nat, dict: nat)
    requires 1 <= offs <= dict < U32 && bufferPos < dict
    ensures PeekIndex(bufferPos, offs, dict) == Cell(bufferPos, offs, dict) <==>
            offs <= bufferPos || offs - bufferPos <= U32 - dict
  {
    if offs <= bufferPos {
      assert (bufferPos - offs) % U32 == bufferPos - offs;
    } else {
      assert (bufferPos - offs) % U32 == bufferPos - offs + U32;
      if offs - bufferPos <= U32 - dict {
        assert (bufferPos - offs + U32 + dict) % U32 == bufferPos - offs + dict;
      }
    }
  }

  ghost predicate AlwaysRight(dict: nat) {
    forall bufferPos: nat, offs: nat ::
      1 <= offs <= dict && bufferPos < dict ==> PeekIndex(bufferPos, offs, dict) == Cell(bufferPos, offs, dict)
  }

  /** A dictionary is read right at every position exactly when it is at most 2^31 bytes. */
  lemma RightDictionaries(dict: nat)
    requires 1 <= dict < U32
    ensures AlwaysRight(dict) <==> dict <= 0x8000_0000
  {
    forall bufferPos: nat, offs: nat | 1 <= offs <= dict && bufferPos < dict && dict <= 0x8000_0000
      ensures PeekIndex(bufferPos, offs, dict) == Cell(bufferPos, offs, dict)
    {
      PeekIndexRight(bufferPos, offs, dict);
    }
    PeekIndexRight(0, dict, dict);
  }

  /** A buffer written up to pos: it holds the written part of this round after what was flushed, and
      the rest of the round before. */
  ghost predicate Holds(buf: seq<Byte>, pos: nat, flushed: seq<Byte>, hist: seq<Byte>, dict: nat, dst: nat) {
    && |buf| == (if dst < dict then dst else dict)
    && pos < dict && pos <= |buf|
    && hist == flushed + buf[..pos]
    && (flushed != [] ==>
          && dict <= dst && |flushed| >= dict
          && forall i :: pos <= i < dict ==> buf[i] == hist[|flushed| - dict + i])
  }

  /** One more byte; a full buffer is flushed. */
  lemma HoldsWrite(buf: seq<Byte>, pos: nat, flushed: seq<Byte>, hist: seq<Byte>, dict: nat, dst: nat, b: Byte)
    requires Holds(buf, pos, flushed, hist, dict, dst) && pos < |buf|
    ensures var buf', hist' := buf[pos := b], hist + [b];
            if pos + 1 < dict then Holds(buf', pos + 1, flushed, hist', dict, dst)
            else flushed + buf' == hist' && Holds(buf', 0, hist', hist', dict, dst)
  {
    var buf' := buf[pos := b];
    assert buf'[..pos + 1] == buf[..pos] + [b];
    assert hist + [b] == flushed + buf'[..pos + 1];
    if pos + 1 == dict { assert buf'[..pos + 1] == buf'; }
  }

  lemma HoldsCell(buf: seq<Byte>, pos: nat, flushed: seq<Byte>, hist: seq<Byte>, dict: nat, dst: nat, offs: nat)
    requires Holds(buf, pos, flushed, hist, dict, dst) && 1 <= offs <= dict && offs <= |hist|
    ensures 0 <= Cell(pos, offs, dict) < |buf| && buf[Cell(pos, offs, dict)] == Back(hist, offs)
  {}

  /** Where the output stands: in the buffer alone as long as the window is larger than the output. */
  lemma HoldsSize(buf: seq<Byte>, pos: nat, flushed: seq<Byte>, hist: seq<Byte>, dict: nat, dst: nat)
    requires Holds(buf, pos, flushed, hist, dict, dst)
    ensures |hist| == |flushed| + pos && pos < dict && pos <= |buf|
    ensures dst < dict ==> flushed == [] && |hist| == pos && |buf| == dst
    ensures dict <= dst ==> pos < |buf| && pos < dst
    ensures |hist| < dst ==> pos < |buf|
  {}

  class Writer {
    const buffer: array<Byte>
    const dict: nat
    const dst: nat
    var bufferPos: nat
    var globalPos: nat
    var previousByte: Byte
    /** What the flush callback has been given. */
    var flushed: seq<Byte>
    /** Everything written. */
    ghost var hist: seq<Byte>

    constructor (dict: nat, dst: nat)
      requires 1 <= dict < U32
      ensures Valid() && hist == [] && this.dict == dict && this.dst == dst && fresh(buffer)
    {
      this.dict, this.dst := dict, dst;
      buffer := new Byte[if dst < dict then dst else dict];
      bufferPos, globalPos, previousByte, flushed, hist := 0, 0, 0, [], [];
    }

    ghost predicate Valid()
      reads this, buffer
    {
      && 1 <= dict < U32
      && Holds(buffer[..], bufferPos, flushed, hist, dict, dst)
      && globalPos == |flushed|
      && previousByte == if hist == [] then 0 else hist[|hist| - 1]
    }

    /** get_pos. */
    method GetPos() returns (n: nat)
      requires Valid()
      ensures n == |hist|
    {
      n := globalPos + bufferPos;
    }

    /** peek_old_byte with flush. */
    method PeekOldByte(offs: nat) returns (b: Byte)
      requires Valid() && 1 <= offs <= dict && offs <= |hist|
      requires offs <= bufferPos || offs - bufferPos <= U32 - dict
      ensures b == Back(hist, offs)
    {
      hide Holds;
      HoldsSize(buffer[..], bufferPos, flushed, hist, dict, dst);
      HoldsCell(buffer[..], bufferPos, flushed, hist, dict, dst, offs);
      PeekIndexRight(bufferPos, offs, dict);
      var pos := (bufferPos - offs) % U32;
      while pos >= dict
        invariant 0 <= pos < U32
        invariant (if pos >= dict then (pos + dict) % U32 else pos) == Cell(bufferPos, offs, dict)
        decreases if pos >= dict then 1 else 0
      {
        pos := (pos + dict) % U32;
      }
      b := buffer[pos];
    }

    /** write_byte with flush; accepted says whether the callback takes a full buffer. */
    method WriteByte(b: Byte, accepted: bool) returns (ok: bool)
      requires Valid() && bufferPos < buffer.Length
      modifies this, buffer
      ensures Valid() && hist == old(hist) + [b]
      ensures bufferPos == if old(bufferPos) + 1 == dict then 0 else old(bufferPos) + 1
      ensures flushed == if old(bufferPos) + 1 == dict then old(hist) + [b] else old(flushed)
      ensures ok <==> old(bufferPos) + 1 < dict || accepted
    {
      hide Holds;
      ghost var s := buffer[..];
      HoldsSize(s, bufferPos, flushed, hist, dict, dst);
      HoldsWrite(s, bufferPos, flushed, hist, dict, dst, b);
      buffer[bufferPos] := b;
      assert buffer[..] == s[bufferPos := b];
      previousByte := b;
      hist := hist + [b];
      bufferPos := bufferPos + 1;
      if bufferPos == dict {
        bufferPos := 0;
        globalPos := globalPos + dict;
        flushed := flushed + buffer[..];
        return accepted;
      }
      ok := true;
    }

    /** copy_bytes with flush. The test against dst_size looks at the position in the buffer, not in
        the output: with a dictionary no larger than the output it never stops a match. */
    method CopyBytes(offs: nat, len0: nat) returns (left: nat)
      requires Valid() && 1 <= offs <= dict && offs <= |hist| && len0 >= 1 && dict <= 0x8000_0000
      requires dst < dict ==> |hist| < dst
      modifies this, buffer
      ensures Valid()
      ensures var n := if dict <= dst || len0 <= dst - old(|hist|) then len0 else dst - old(|hist|);
              hist == Copy(old(hist), offs, n) && left == len0 - n
    {
      hide Holds, Copy;
      CopyNone(hist, offs);
      var len := len0;
      ghost var h := hist;
      var more := true;
      HoldsSize(buffer[..], bufferPos, flushed, hist, dict, dst);
      while more
        invariant Valid() && 0 <= len <= len0 && hist == Copy(h, offs, len0 - len)
        invariant dst < dict ==> |h| + (len0 - len) == bufferPos <= dst
        invariant more ==> len > 0 && bufferPos < dst
        invariant !more ==> len == 0 || bufferPos >= dst
        decreases len, more
      {
        HoldsSize(buffer[..], bufferPos, flushed, hist, dict, dst);
        CopyMore(h, offs, len0 - len);
        var b := PeekOldByte(offs);
        var ok := WriteByte(b, true);
        HoldsSize(buffer[..], bufferPos, flushed, hist, dict, dst);
        len := len - 1;
        more := len != 0 && bufferPos < dst;
      }
      HoldsSize(buffer[..], bufferPos, flushed, hist, dict, dst);
      left := len;
    }

    /** What the coding of the next packet depends on, read as process_bit0 reads it, is what it is in
        linear mode: after a copy the byte at distance rep0, too. */
    method NextContext(cs: CState) returns (c: Context)
      requires Valid() && dict <= 0x8000_0000 && StateOk(cs, hist, dict) && hist != []
      ensures c == Ctx(cs, hist)
    {
      hide Holds;
      HoldsSize(buffer[..], bufferPos, flushed, hist, dict, dst);
      var pos := GetPos();
      var mb := PeekOldByte(cs.rep0);
      c := Context(pos, previousByte, mb);
    }

    /** The output of process_bit0 and process_bit1 with flush: one packet and the distances after it,
        or the end marker. */
    method Play(cs: CState, p: Packet) returns (ended: bool, next: CState)
      requires Valid() && dict <= 0x8000_0000 && StateOk(cs, hist, dict) && PacketOk(p) && |hist| < dst
      requires !Apply(cs, hist, p, dict, dst).Stop?
      modifies this, buffer
      ensures Valid()
      ensures match Apply(cs, old(hist), p, dict, dst)
              case Next(c, h) => !ended && next == c && hist == h
              case End => ended && hist == old(hist)
              case Stop(_, _) => false
    {
      hide Holds, Copy;
      HoldsSize(buffer[..], bufferPos, flushed, hist, dict, dst);
      ended, next := false, NextReps(cs, p);
      match p {
        case Lit(b) =>
          var _ := WriteByte(b, true);
        case ShortRep =>
          var b := PeekOldByte(next.rep0);
          var _ := WriteByte(b, true);
        case Match(len, dist) =>
          if dist + 1 == U32 {
            ended := true;
          } else {
            var _ := CopyBytes(next.rep0, len + 2);
          }
        case Rep(_, len) =>
          var _ := CopyBytes(next.rep0, len + 2);
      }
    }

    /** Packets that drive linear mode to some output make the circular writer flush just that. */
    method PlayAll(ps: seq<Packet>, ghost out: seq<Byte>)
      requires Valid() && dict <= 0x8000_0000 && hist == []
      requires Drives(Start(), [], ps, dict, dst, out)
      modifies this, buffer
      ensures flushed == out
    {
      hide Holds, Apply, StateOk;
      var cs, i, ended := Start(), 0, false;
      AtStart(dict);
      while i < |ps| && !ended
        invariant Valid() && 0 <= i <= |ps| && (ended ==> hist == out)
        invariant !ended ==> StateOk(cs, hist, dict) && Drives(cs, hist, ps[i..], dict, dst, out)
        decreases |ps| - i
      {
        ApplyKeeps(cs, hist, ps[i], dict, dst);
        assert ps[i..][1..] == ps[i + 1..];
        ended, cs := Play(cs, ps[i]);
        i := i + 1;
      }
      FinalFlush();
    }

    /** The partial flush at the end of unlzma: chunks and last part together are the history. */
    method FinalFlush()
      requires Valid()
      modifies this`flushed
      ensures flushed == hist
    {
      flushed := flushed + buffer[..bufferPos];
    }
  }

  lemma AtStart(dict: nat)
    requires dict >= 1
    ensures StateOk(Start(), [], dict)
  {}
}
