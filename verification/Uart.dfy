/** The transmit ring of serial_core.c, the console writer, and the serial daemon that mirrors them. */
module Uart {
  import opened RangeCoder

  /** UART_XMIT_SIZE: one page. A C `& (UART_XMIT_SIZE - 1)` is the remainder below. */
  const XMIT: int := 4096

  const PAGE: nat := 4096

  /** uart_circ_chars_pending. */
  function Pending(head: int, tail: int): int { (head - tail) % XMIT }

  /** uart_circ_chars_free. */
  function FreeChars(head: int, tail: int): int { (tail - (head + 1)) % XMIT }

  /** CIRC_SPACE_TO_END. */
  function SpaceToEnd(head: int, tail: int): int {
    var end := XMIT - 1 - head;
    var n := (end + tail) % XMIT;
    if n <= end then n else end + 1
  }

  /** The pid-attached daemon: a one-page buffer that starts over when it would overflow. */
  class Daemon {
    const buf: array<Byte>
    var length: nat
    var attached: bool
    /** Every byte handed over while attached. */
    ghost var stream: seq<Byte>

    constructor ()
      ensures Valid() && !attached && stream == [] && fresh(buf)
    {
      buf := new Byte[PAGE];
      length, attached, stream := 0, false, [];
    }

    /** The buffer holds the latest bytes of the stream. */
    ghost predicate Valid()
      reads this, buf
    {
      && buf.Length == PAGE && length <= PAGE && length <= |stream|
      && buf[..length] == stream[|stream| - length..]
    }

    /** serial_daemon_write. Its caller never hands over more than a page. */
    method Write(data: seq<Byte>)
      requires Valid() && |data| <= PAGE
      modifies this, buf
      ensures Valid() && attached == old(attached)
      ensures stream == old(stream) + (if attached then data else [])
      ensures attached ==> length == if old(length) + |data| > PAGE then |data| else old(length) + |data|
    {
      if attached {
        if length + |data| > PAGE {
          length := 0;
        }
        ghost var kept := buf[..length];
        forall i | 0 <= i < |data| {
          buf[length + i] := data[i];
        }
        length := length + |data|;
        stream := stream + data;
        assert buf[..length] == kept + data;
      }
    }

    /** serial_daemon_putchar. */
    method PutChar(c: Byte)
      requires Valid()
      modifies this, buf
      ensures Valid() && attached == old(attached)
      ensures stream == old(stream) + (if attached then [c] else [])
    {
      Write([c]);
    }
  }

  lemma Prefixes(q: seq<Byte>, data: seq<Byte>, n: nat, c: nat)
    requires n + c <= |data|
    ensures q + data[..n] + data[n..n + c] == q + data[..n + c]
  {
    assert data[..n] + data[n..n + c] == data[..n + c];
    Associates(q, data[..n], data[n..n + c]);
  }

  lemma Associates(a: seq<Byte>, b: seq<Byte>, c: seq<Byte>)
    ensures a + b + c == a + (b + c)
  {}

  class Port {
    const buf: array<Byte>
    /** Whether the port is open: circ->buf is not NULL. */
    var open: bool
    var head: nat
    var tail: nat
    const daemon: Daemon
    /** Bytes accepted, and bytes the driver took, since the last flush. */
    ghost var accepted: seq<Byte>
    ghost var sent: seq<Byte>

    constructor (daemon: Daemon)
      requires daemon.Valid()
      ensures Valid() && open && this.daemon == daemon && Queue() == [] && accepted == [] && fresh(buf)
    {
      this.daemon := daemon;
      buf := new Byte[XMIT];
      open, head, tail, accepted, sent := true, 0, 0, [], [];
    }

    /** The bytes waiting to be sent, oldest first. */
    ghost function Queue(): seq<Byte>
      reads this, buf
      requires head < buf.Length && tail < buf.Length
    {
      Ring(buf[..], head, tail)
    }

    /** The ring is a first-in first-out queue: what was accepted is what was sent, then the queue. */
    ghost predicate Valid()
      reads this, buf, daemon, daemon.buf
    {
      && buf.Length == XMIT && head < XMIT && tail < XMIT
      && daemon.Valid() && daemon.buf != buf
      && accepted == sent + Queue()
    }

    lemma Counts()
      requires Valid()
      ensures Pending(head, tail) == |Queue()| && FreeChars(head, tail) == XMIT - 1 - |Queue()|
      ensures 0 <= SpaceToEnd(head, tail) <= FreeChars(head, tail) && head + SpaceToEnd(head, tail) <= XMIT
      ensures SpaceToEnd(head, tail) == 0 <==> FreeChars(head, tail) == 0
    {}

    /** memcpy of c bytes at head, and the advance of head. */
    method Append(data: seq<Byte>)
      requires Valid() && |data| <= SpaceToEnd(head, tail)
      modifies this, buf
      ensures Valid() && Queue() == old(Queue()) + data
      ensures sent == old(sent) && open == old(open)
    {
      hide Ring, SpaceToEnd, FreeChars, Pending;
      ghost var b, h := buf[..], head;
      Counts();
      Associates(sent, Queue(), data);
      forall i | 0 <= i < |data| {
        buf[head + i] := data[i];
      }
      head := (head + |data|) % XMIT;
      accepted := accepted + data;
      RingAppend(b, buf[..], h, tail, data);
    }

    /** __uart_put_char. */
    method PutChar(c: Byte) returns (ret: nat)
      requires Valid()
      modifies this, buf
      ensures Valid() && sent == old(sent)
      ensures ret == if open && |old(Queue())| < XMIT - 1 then 1 else 0
      ensures Queue() == old(Queue()) + if ret == 1 then [c] else []
    {
      Counts();
      if !open {
        return 0;
      }
      if FreeChars(head, tail) != 0 {
        Append([c]);
        return 1;
      }
      ret := 0;
    }

    /** uart_write: as much of the data as there is room for, and the same bytes to the daemon. */
    method Write(data: seq<Byte>) returns (ret: nat)
      requires Valid()
      modifies this, buf, daemon, daemon.buf
      ensures Valid() && sent == old(sent) && open == old(open)
      ensures ret == if !open then 0 else Smaller(|data|, XMIT - 1 - |old(Queue())|)
      ensures ret <= |data| && Queue() == old(Queue()) + data[..ret]
      ensures daemon.stream == old(daemon.stream) + (if old(daemon.attached) then data[..ret] else [])
    {
      hide Ring, SpaceToEnd, FreeChars, Pending;
      Counts();
      if !open {
        return 0;
      }
      ret := 0;
      while true
        invariant Valid() && sent == old(sent) && open && ret <= |data|
        invariant Queue() == old(Queue()) + data[..ret]
        invariant daemon.stream == old(daemon.stream) && daemon.attached == old(daemon.attached)
        decreases |data| - ret
      {
        Counts();
        var c := SpaceToEnd(head, tail);
        if |data| - ret < c {
          c := |data| - ret;
        }
        if c <= 0 {
          break;
        }
        Prefixes(old(Queue()), data, ret, c);
        Append(data[ret..ret + c]);
        ret := ret + c;
      }
      daemon.Write(data[..ret]);
    }

    /** uart_write_room. */
    method WriteRoom() returns (n: nat)
      requires Valid()
      ensures n == XMIT - 1 - |Queue()|
    {
      Counts();
      n := FreeChars(head, tail);
    }

    /** uart_chars_in_buffer. */
    method CharsInBuffer() returns (n: nat)
      requires Valid()
      ensures n == |Queue()|
    {
      Counts();
      n := Pending(head, tail);
    }

    /** uart_flush_buffer. */
    method FlushBuffer()
      requires Valid()
      modifies this
      ensures Valid() && Queue() == [] && accepted == [] && open == old(open)
    {
      head, tail := 0, 0;
      accepted, sent := [], [];
    }

    /** A driver's transmit interrupt: the oldest byte goes out and tail advances. */
    method SendOne() returns (c: Byte)
      requires Valid() && Queue() != []
      modifies this
      ensures Valid() && [c] + Queue() == old(Queue()) && sent == old(sent) + [c] && accepted == old(accepted)
    {
      hide Ring;
      c := buf[tail];
      Associates(sent, [c], Ring(buf[..], head, (tail + 1) % XMIT));
      RingTake(buf[..], head, tail);
      sent := sent + [c];
      tail := (tail + 1) % XMIT;
    }

    /** uart_console_write, with what its putchar callback is given. */
    method ConsoleWrite(s: seq<Byte>) returns (line: seq<Byte>)
      requires Valid()
      modifies daemon, daemon.buf
      ensures Valid() && Queue() == old(Queue())
      ensures line == Expanded(s)
      ensures daemon.stream == old(daemon.stream) + (if old(daemon.attached) then Expanded(s) else [])
    {
      hide Ring, Expanded;
      line := [];
      assert s[..0] == [];
      ExpandedNone();
      for i := 0 to |s|
        invariant Valid() && Queue() == old(Queue()) && line == Expanded(s[..i])
        invariant daemon.attached == old(daemon.attached)
        invariant daemon.stream == old(daemon.stream) + (if old(daemon.attached) then line else [])
      {
        ExpandedStep(s, i);
        if s[i] == NEWLINE {
          Associates(Expanded(s[..i]), [RETURN], [NEWLINE]);
          Associates(old(daemon.stream), line, [RETURN]);
          line := line + [RETURN];
          daemon.PutChar(RETURN);
        }
        Associates(old(daemon.stream), line, [s[i]]);
        line := line + [s[i]];
        daemon.PutChar(s[i]);
      }
      assert s[..|s|] == s;
    }
  }

  /** The cells from tail up to head, around the end of the buffer. */
  ghost function Ring(b: seq<Byte>, head: nat, tail: nat): seq<Byte>
    requires head < |b| && tail < |b|
  {
    if tail <= head then b[tail..head] else b[tail..] + b[..head]
  }

  lemma RingAppend(b: seq<Byte>, b': seq<Byte>, head: nat, tail: nat, data: seq<Byte>)
    requires |b| == |b'| == XMIT && head < XMIT && tail < XMIT && |data| <= SpaceToEnd(head, tail)
    requires forall i :: 0 <= i < XMIT ==> b'[i] == if head <= i < head + |data| then data[i - head] else b[i]
    ensures Ring(b', (head + |data|) % XMIT, tail) == Ring(b, head, tail) + data
  {
    hide SpaceToEnd;
    var e := head + |data|;
    SpaceFits(head, tail, |data|);
    Advance(e);
    if tail <= head {
      Grows(b, b', tail, head, data);
      if e == XMIT { assert b'[tail..] + b'[..0] == b'[tail..e]; }
    } else {
      Grows(b, b', 0, head, data);
      assert b'[tail..] == b[tail..];
      Associates(b[tail..], b[..head], data);
    }
  }

  /** A stretch of cells up to head, with data written behind it. */
  lemma Grows(b: seq<Byte>, b': seq<Byte>, from: nat, head: nat, data: seq<Byte>)
    requires from <= head && head + |data| <= |b| == |b'|
    requires forall i :: 0 <= i < |b| ==> b'[i] == if head <= i < head + |data| then data[i - head] else b[i]
    ensures b'[from..head + |data|] == b[from..head] + data
  {}

  lemma SpaceFits(head: nat, tail: nat, n: nat)
    requires head < XMIT && tail < XMIT && n <= SpaceToEnd(head, tail)
    ensures head + n <= XMIT && (head + n == XMIT && tail <= head ==> tail > 0) && (tail > head ==> head + n < tail)
  {}

  lemma Advance(e: nat)
    requires e <= XMIT
    ensures e % XMIT == if e == XMIT then 0 else e
  {}

  lemma RingTake(b: seq<Byte>, head: nat, tail: nat)
    requires |b| == XMIT && head < XMIT && tail < XMIT && Ring(b, head, tail) != []
    ensures [b[tail]] + Ring(b, head, (tail + 1) % XMIT) == Ring(b, head, tail)
  {
    Advance(tail + 1);
    var t := (tail + 1) % XMIT;
    if tail <= head {
      assert tail < head;
      assert b[tail..head] == [b[tail]] + b[tail + 1..head];
    } else if t == 0 {
      assert b[tail..] == [b[tail]] && Ring(b, head, t) == b[..head];
    } else {
      assert b[tail..] == [b[tail]] + b[t..];
      Associates([b[tail]], b[t..], b[..head]);
    }
  }

  const NEWLINE: Byte := 10
  const RETURN: Byte := 13

  function Smaller(a: int, b: int): int { if a < b then a else b }

  /** A carriage return before every newline. */
  function Expanded(s: seq<Byte>): seq<Byte> {
    if s == [] then [] else (if s[0] == NEWLINE then [RETURN, NEWLINE] else [s[0]]) + Expanded(s[1..])
  }

  /** A text with each carriage return that stands directly before a newline dropped. */
  function Dropped(s: seq<Byte>): seq<Byte> {
    if s == [] then []
    else if |s| >= 2 && s[0] == RETURN && s[1] == NEWLINE then Dropped(s[1..])
    else [s[0]] + Dropped(s[1..])
  }

  /** Every newline has a return directly before it, and nothing else was added. */
  lemma {:induction false} ExpandedMeaning(s: seq<Byte>)
    ensures forall i :: 0 <= i < |Expanded(s)| && Expanded(s)[i] == NEWLINE ==> i > 0 && Expanded(s)[i - 1] == RETURN
    ensures Dropped(Expanded(s)) == s
  {
    if s != [] {
      ExpandedMeaning(s[1..]);
      var e, rest := Expanded(s), Expanded(s[1..]);
      if s[0] == NEWLINE {
        assert e[1..] == [NEWLINE] + rest;
        assert e[1..][1..] == rest;
      } else {
        assert e[1..] == rest;
      }
      assert e == e[..|e| - |rest|] + rest;
    }
  }

  lemma ExpandedNone()
    ensures Expanded([]) == []
  {}

  lemma {:induction false} ExpandedConcat(a: seq<Byte>, b: seq<Byte>)
    ensures Expanded(a + b) == Expanded(a) + Expanded(b)
  {
    if a == [] {
      assert a + b == b;
    } else {
      ExpandedConcat(a[1..], b);
      assert (a + b)[1..] == a[1..] + b;
      var first := if a[0] == NEWLINE then [RETURN, NEWLINE] else [a[0]];
      assert first + (Expanded(a[1..]) + Expanded(b)) == first + Expanded(a[1..]) + Expanded(b);
    }
  }

  lemma ExpandedStep(s: seq<Byte>, i: nat)
    requires i < |s|
    ensures Expanded(s[..i + 1]) == Expanded(s[..i]) + if s[i] == NEWLINE then [RETURN, NEWLINE] else [s[i]]
  {
    assert s[..i + 1] == s[..i] + [s[i]];
    ExpandedConcat(s[..i], [s[i]]);
    assert Expanded([s[i]][1..]) == [];
  }
}
