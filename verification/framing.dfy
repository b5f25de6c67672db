/** Reassembly of the monitor's reply stream into frames (src/ViceInterface.cpp:632-713).

    A reply frame starts with the marker byte 2 (STX); the header layout is the one of the
    binary monitor chapter of the VICE manual: STX, API version, a 4-byte little-endian body
    length, the response type, the error code and a 4-byte little-endian request ID, 12 bytes
    in all. The frame's declared size is the header plus the body. */
module Framing {
  import opened Words

  const STX: Byte := 2
  const HEADER: nat := 12

  /** Little-endian 32-bit word from its four bytes. */
  function LE32(b0: Byte, b1: Byte, b2: Byte, b3: Byte): (w: Word32)
    ensures U8(w) == b0 && w / 0x100_0000 == b3
  {
    b0 + b1 * 0x100 + b2 * 0x1_0000 + b3 * 0x100_0000
  }

  /** The size a header declares for its whole frame. */
  function FrameSize(buf: seq<Byte>): (n: nat)
    requires |buf| >= HEADER
    ensures n >= HEADER
  {
    HEADER + LE32(buf[2], buf[3], buf[4], buf[5])
  }

  /** The response type of a frame. */
  function Kind(f: seq<Byte>): Byte
    requires |f| >= HEADER
  {
    f[6]
  }

  /** The request ID a frame answers; `SENTINEL` for unsolicited events. */
  function RequestId(f: seq<Byte>): Word32
    requires |f| >= HEADER
  {
    LE32(f[8], f[9], f[10], f[11])
  }

  /** The loop's condition for taking a frame off the front: a whole header is buffered, it
      starts with STX, and the declared size has arrived. */
  predicate Ready(buf: seq<Byte>)
  {
    |buf| >= HEADER && buf[0] == STX && FrameSize(buf) <= |buf|
  }

  /** A complete frame: STX, a header, and exactly the declared number of bytes. */
  predicate WellFramed(f: seq<Byte>)
  {
    |f| >= HEADER && f[0] == STX && FrameSize(f) == |f|
  }

  /** The bytes of a sequence of frames laid end to end. */
  function Concat(fs: seq<seq<Byte>>): seq<Byte>
  {
    if |fs| == 0 then [] else fs[0] + Concat(fs[1..])
  }

  /** What the receive loop takes from the buffer: the frames it dispatches, in stream order,
      and the unconsumed rest that it moves to the front of the buffer. */
  function Extract(buf: seq<Byte>): (r: (seq<seq<Byte>>, seq<Byte>))
    ensures Concat(r.0) + r.1 == buf
    ensures forall i :: 0 <= i < |r.0| ==> WellFramed(r.0[i])
    ensures !Ready(r.1)
    decreases |buf|
  {
    if Ready(buf) then
      var n := FrameSize(buf);
      var rest := Extract(buf[n..]);
      ExtractStep(buf, rest.0, rest.1);
      ([buf[..n]] + rest.0, rest.1)
    else ([], buf)
  }

  /** One step of `Extract`: the first frame followed by the frames and rest of what remains. */
  lemma ExtractStep(buf: seq<Byte>, fs: seq<seq<Byte>>, rest: seq<Byte>)
    requires Ready(buf)
    requires Concat(fs) + rest == buf[FrameSize(buf)..]
    requires forall i :: 0 <= i < |fs| ==> WellFramed(fs[i])
    ensures Concat([buf[..FrameSize(buf)]] + fs) + rest == buf
    ensures forall i :: 0 <= i < |fs| + 1 ==> WellFramed(([buf[..FrameSize(buf)]] + fs)[i])
  {
    var n := FrameSize(buf);
    StepBytes(buf, n, fs, rest);
    HeadFrame(buf);
    ConsFramed(buf[..n], fs);
  }

  lemma StepBytes(buf: seq<Byte>, n: nat, fs: seq<seq<Byte>>, rest: seq<Byte>)
    requires n <= |buf| && Concat(fs) + rest == buf[n..]
    ensures Concat([buf[..n]] + fs) + rest == buf
  {
    ConcatCons(buf[..n], fs);
    Regroup(buf[..n], Concat(fs), rest);
    assert buf[..n] + buf[n..] == buf;
  }

  lemma ConsFramed(f: seq<Byte>, fs: seq<seq<Byte>>)
    requires WellFramed(f)
    requires forall i :: 0 <= i < |fs| ==> WellFramed(fs[i])
    ensures forall i :: 0 <= i < |fs| + 1 ==> WellFramed(([f] + fs)[i])
  {
    var all := [f] + fs;
    forall i | 0 <= i < |all|
      ensures WellFramed(all[i])
    {
      if i > 0 {
        assert all[i] == fs[i - 1];
      }
    }
  }

  /** The first frame of a ready buffer is a complete frame. */
  lemma HeadFrame(buf: seq<Byte>)
    requires Ready(buf)
    ensures WellFramed(buf[..FrameSize(buf)])
  {
    var f := buf[..FrameSize(buf)];
    assert f[2] == buf[2] && f[3] == buf[3] && f[4] == buf[4] && f[5] == buf[5];
  }

  /** Concatenation is associative. */
  lemma Regroup(x: seq<Byte>, y: seq<Byte>, z: seq<Byte>)
    ensures x + (y + z) == (x + y) + z
  {
  }

  lemma ConcatCons(f: seq<Byte>, fs: seq<seq<Byte>>)
    ensures Concat([f] + fs) == f + Concat(fs)
  {
    assert ([f] + fs)[1..] == fs;
  }

  lemma ConcatAppend(a: seq<seq<Byte>>, b: seq<seq<Byte>>)
    ensures Concat(a + b) == Concat(a) + Concat(b)
    decreases |a|
  {
    if |a| > 0 {
      assert (a + b)[1..] == a[1..] + b;
      assert (a + b)[0] == a[0];
      ConcatAppend(a[1..], b);
      assert Concat(a + b) == a[0] + Concat(a[1..] + b);
    } else {
      assert a + b == b;
    }
  }

  /** The split into frames and rest is the only one: any sequence of complete frames
      followed by a rest the loop would not start on is exactly what `Extract` returns. */
  lemma {:induction false} ExtractUnique(buf: seq<Byte>, fs: seq<seq<Byte>>, rest: seq<Byte>)
    requires forall i :: 0 <= i < |fs| ==> WellFramed(fs[i])
    requires Concat(fs) + rest == buf
    requires !Ready(rest)
    ensures Extract(buf) == (fs, rest)
    decreases |fs|
  {
    if |fs| == 0 {
      assert buf == rest;
    } else {
      var f := fs[0];
      assert WellFramed(f);
      assert buf == f + (Concat(fs[1..]) + rest);
      assert buf[..|f|] == f;
      assert buf[2..6] == f[2..6];
      assert FrameSize(buf) == |f|;
      assert Ready(buf);
      assert buf[|f|..] == Concat(fs[1..]) + rest;
      ExtractUnique(buf[|f|..], fs[1..], rest);
      assert fs == [f] + fs[1..];
    }
  }

  /** Reassembly does not depend on how the stream was chunked: extracting from what was
      left over plus the next chunk yields the same frames, in order, as extracting from the
      whole stream at once. */
  lemma ChunkIndependent(buf: seq<Byte>, more: seq<Byte>)
    ensures Extract(buf + more).0 == Extract(buf).0 + Extract(Extract(buf).1 + more).0
    ensures Extract(buf + more).1 == Extract(Extract(buf).1 + more).1
  {
    var e1 := Extract(buf);
    var e2 := Extract(e1.1 + more);
    JoinedBytes(buf, more, e1.0, e1.1, e2.0, e2.1);
    JoinedFrames(e1.0, e2.0);
    ExtractUnique(buf + more, e1.0 + e2.0, e2.1);
  }

  lemma JoinedBytes(buf: seq<Byte>, more: seq<Byte>, fs1: seq<seq<Byte>>, rest1: seq<Byte>, fs2: seq<seq<Byte>>, rest2: seq<Byte>)
    requires Concat(fs1) + rest1 == buf
    requires Concat(fs2) + rest2 == rest1 + more
    ensures Concat(fs1 + fs2) + rest2 == buf + more
  {
    ConcatAppend(fs1, fs2);
    calc {
      Concat(fs1 + fs2) + rest2;
      Concat(fs1) + Concat(fs2) + rest2;
      Concat(fs1) + (rest1 + more);
      (Concat(fs1) + rest1) + more;
    }
  }

  lemma JoinedFrames(fs1: seq<seq<Byte>>, fs2: seq<seq<Byte>>)
    requires forall i :: 0 <= i < |fs1| ==> WellFramed(fs1[i])
    requires forall i :: 0 <= i < |fs2| ==> WellFramed(fs2[i])
    ensures forall i :: 0 <= i < |fs1 + fs2| ==> WellFramed((fs1 + fs2)[i])
  {
    forall i | 0 <= i < |fs1 + fs2|
      ensures WellFramed((fs1 + fs2)[i])
    {
      if i < |fs1| {
        assert (fs1 + fs2)[i] == fs1[i];
      } else {
        assert (fs1 + fs2)[i] == fs2[i - |fs1|];
      }
    }
  }

  /** A leftover that does not start with STX is never consumed, whatever arrives later. */
  lemma StrayByteBlocks(rest: seq<Byte>, more: seq<Byte>)
    requires |rest| > 0 && rest[0] != STX
    ensures Extract(rest + more) == ([], rest + more)
  {
    assert (rest + more)[0] == rest[0];
  }

  /** The receive loop as written: take whole frames off the front and compact the buffer,
      until the header is incomplete, the marker is wrong or the frame is not all there. */
  method ExtractLoop(buf: seq<Byte>) returns (frames: seq<seq<Byte>>, rest: seq<Byte>)
    ensures Concat(frames) + rest == buf
    ensures forall i :: 0 <= i < |frames| ==> WellFramed(frames[i])
    ensures !Ready(rest)
    ensures (frames, rest) == Extract(buf)
  {
    frames, rest := [], buf;
    assert frames + Extract(rest).0 == Extract(buf).0;
    while |rest| >= HEADER && rest[0] == STX
      invariant Extract(buf) == (frames + Extract(rest).0, Extract(rest).1)
      decreases |rest|
    {
      var bytes := FrameSize(rest);
      if |rest| >= bytes {
        var frame, after := rest[..bytes], rest[bytes..];
        assert Extract(rest) == ([frame] + Extract(after).0, Extract(after).1);
        assert frames + Extract(rest).0 == (frames + [frame]) + Extract(after).0;
        frames := frames + [frame];
        if |rest| > bytes {
          rest := after;
        } else {
          assert after == [];
          rest := [];
        }
      } else {
        break;
      }
    }
    assert Extract(rest) == ([], rest);
    assert frames + [] == frames;
  }
}
