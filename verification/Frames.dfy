/**
 Control frames: their images in the memory of a little-endian host, the byte
 swapping of the writer and of the receiver, and the receiver's checks.
 */
module Frames {
  import opened Words
  import opened Memory
  import opened Crc

  // ---------------------------------------------------------------- byte order

  function Reverse(b: seq<Byte>): (r: seq<Byte>)
    ensures |r| == |b| && forall i | 0 <= i < |b| :: r[i] == b[|b| - 1 - i]
  {
    seq(|b|, i requires 0 <= i < |b| => b[|b| - 1 - i])
  }

  /** `htobe16`, `htobe32` and their inverses on a little-endian host. */
  function ByteSwap(v: nat, n: nat): (r: nat)
    ensures r < Range(n)
  {
    WritesBack(Reverse(LE(v, n)));
    FromLE(Reverse(LE(v, n)))
  }

  /** A swapped number lies in memory high byte first. */
  lemma SwapInMemory(v: nat, n: nat)
    ensures LE(ByteSwap(v, n), n) == Reverse(LE(v, n))
  {
    WritesBack(Reverse(LE(v, n)));
  }

  lemma SwapTwice(v: nat, n: nat)
    requires v < Range(n)
    ensures ByteSwap(ByteSwap(v, n), n) == v
  {
    SwapInMemory(v, n);
    assert Reverse(Reverse(LE(v, n))) == LE(v, n);
    ReadsBack(v, n);
  }

  /** The 24-bit counter is swapped as a 32-bit word and shifted down by a byte. */
  function Swap24(v: nat): (r: nat)
  {
    ByteSwap(v, 4) / 256
  }

  lemma TopByteZero(v: nat)
    requires v < Range(3)
    ensures LE(v, 4) == LE(v, 3) + [0]
  {
    assert Range(2) == 0x1_0000 && Range(3) == 0x100_0000;
    var a, b := v / 256, v / 0x1_0000;
    assert a / 256 == b && b / 256 == 0 && b % 256 == b;
    assert LE(b, 1) == [b] && LE(b, 2) == [b, 0];
    assert LE(a, 2) == [a % 256, b] && LE(a, 3) == [a % 256, b, 0];
  }

  lemma Swap24InMemory(v: nat)
    requires v < Range(3)
    ensures Swap24(v) < Range(3) && LE(Swap24(v), 3) == Reverse(LE(v, 3))
  {
    hide LE, Range;
    TopByteZero(v);
    var r := Reverse(LE(v, 3));
    assert Reverse(LE(v, 4)) == [0] + r;
    assert ([0] + r)[1..] == r;
    WritesBack(r);
  }

  lemma Swap24Twice(v: nat)
    requires v < Range(3)
    ensures Swap24(Swap24(v)) == v
  {
    hide LE, Range, ByteSwap, Swap24;
    Swap24InMemory(v);
    Swap24InMemory(Swap24(v));
    assert Reverse(Reverse(LE(v, 3))) == LE(v, 3);
    ReadsBack(v, 3);
    ReadsBack(Swap24(Swap24(v)), 3);
  }

  /** Swapped numbers lie in memory high byte first. */
  lemma SwappedBytes(v: nat)
    ensures LE(ByteSwap(v, 2), 2) == BigEndian16(v)
    ensures LE(ByteSwap(v, 4), 4) == BigEndian32(v)
    ensures v < Range(3) ==> LE(Swap24(v), 3) == BigEndian24(v)
  {
    hide LE, ByteSwap, Swap24, Range;
    BytesOf(v);
    SwapInMemory(v, 2);
    SwapInMemory(v, 4);
    if v < Range(3) {
      Swap24InMemory(v);
    }
  }

  // ---------------------------------------------------------------- control frames

  datatype Frame = Frame(address: Byte, frameType: Byte, nFile: nat, nFrame: nat, status: nat, checkSum: nat)

  ghost predicate FrameFits(f: Frame)
  {
    f.nFile < Range(4) && f.nFrame < Range(2) && f.status < Range(2)
  }

  const FRAME_SIZE: nat := 12

  /** All of the packed structure before its check sum. */
  function FrameBody(f: Frame): (r: seq<Byte>)
    ensures |r| == FRAME_SIZE - 2
  {
    [f.address, f.frameType] + LE(f.nFile, 4) + LE(f.nFrame, 2) + LE(f.status, 2)
  }

  function SwapFrame(f: Frame): (r: Frame)
  {
    f.(nFile := ByteSwap(f.nFile, 4), nFrame := ByteSwap(f.nFrame, 2), status := ByteSwap(f.status, 2))
  }

  /** The bytes `write_frame` sends. */
  function SendFrame(f: Frame): (r: seq<Byte>)
    ensures |r| == FRAME_SIZE
  {
    var body := FrameBody(SwapFrame(f));
    body + LE(Checksum(body), 2)
  }

  /** The structure that lies in memory at these bytes. */
  function LoadFrame(b: seq<Byte>): (f: Frame)
    requires |b| == FRAME_SIZE
  {
    Frame(b[0], b[1], FromLE(b[2..6]), FromLE(b[6..8]), FromLE(b[8..10]), FromLE(b[10..12]))
  }

  datatype Received = Accepted(frame: Frame) | NotEnough | BadChecksum

  /** `receive_frame` on what `read` delivered. */
  function ReceiveFrame(b: seq<Byte>): (r: Received)
    requires |b| <= FRAME_SIZE
  {
    if |b| < FRAME_SIZE then NotEnough
    else if Checksum(b[..FRAME_SIZE - 2]) != LoadFrame(b).checkSum then BadChecksum
    else Accepted(SwapFrame(LoadFrame(b)))
  }

  lemma LoadStored(f: Frame, c: nat)
    requires FrameFits(f) && c < Range(2)
    ensures LoadFrame(FrameBody(f) + LE(c, 2)) == f.(checkSum := c)
  {
    hide LE, FromLE, Range;
    ReadsBack(f.nFile, 4);
    ReadsBack(f.nFrame, 2);
    ReadsBack(f.status, 2);
    ReadsBack(c, 2);
    var b := FrameBody(f) + LE(c, 2);
    assert b[2..6] == LE(f.nFile, 4);
    assert b[6..8] == LE(f.nFrame, 2);
    assert b[8..10] == LE(f.status, 2);
    assert b[10..12] == LE(c, 2);
  }

  lemma ChecksumFits(b: seq<Byte>)
    ensures Checksum(b) < Range(2)
  {
    ChecksumInMemory(b);
    assert Range(2) == 0x1_0000;
  }

  /** Control frames survive the wire: all field values come back, the check sum is the computed one. */
  lemma FrameRoundTrip(f: Frame)
    requires FrameFits(f)
    ensures ReceiveFrame(SendFrame(f)) == Accepted(f.(checkSum := Checksum(FrameBody(SwapFrame(f)))))
  {
    hide LE, FromLE, Range, Checksum, FrameBody, LoadFrame, ByteSwap;
    var g := SwapFrame(f);
    var body := FrameBody(g);
    ChecksumFits(body);
    LoadStored(g, Checksum(body));
    assert (body + LE(Checksum(body), 2))[..FRAME_SIZE - 2] == body;
    SwapTwice(f.nFile, 4);
    SwapTwice(f.nFrame, 2);
    SwapTwice(f.status, 2);
  }

  /** A control frame is accepted exactly when it is whole and leaves the register at zero. */
  lemma AcceptedIsZeroResidue(b: seq<Byte>)
    requires |b| <= FRAME_SIZE
    ensures ReceiveFrame(b).Accepted? <==> |b| == FRAME_SIZE && Register(b) == Zeros(16)
    ensures ReceiveFrame(b).NotEnough? <==> |b| < FRAME_SIZE
  {
    hide Checksum, Register, SwapFrame;
    if |b| == FRAME_SIZE {
      var body, c, d := b[..FRAME_SIZE - 2], b[FRAME_SIZE - 2], b[FRAME_SIZE - 1];
      assert b == body + [c, d];
      ZeroResidue(body, c, d);
      assert b[10..12] == [c, d];
      TwoBytes(c, d);
    }
  }

  /** A control frame damaged within 16 consecutive bits, or in an odd number of bits, is refused for its check sum. */
  lemma FrameDamageIsNoticed(f: Frame, b: seq<Byte>)
    requires FrameFits(f) && |b| == FRAME_SIZE && b != SendFrame(f) && Detectable(b, SendFrame(f))
    ensures ReceiveFrame(b) == BadChecksum
  {
    FrameRoundTrip(f);
    hide FrameBody, SwapFrame, Checksum, Detectable, SendFrame, LoadFrame, Register;
    DamageDetected(b, SendFrame(f));
    ChecksumIsRegister(b, SendFrame(f));
    AcceptedIsZeroResidue(SendFrame(f));
    AcceptedIsZeroResidue(b);
  }

  // ---------------------------------------------------------------- the bytes on the wire

  /** The frame as bytes: every field high byte first, the check sum last and low byte first. */
  ghost predicate IsFrameImage(f: Frame, b: seq<Byte>)
  {
    && |b| == 12 && b[0] == f.address && b[1] == f.frameType
    && b[2..6] == BigEndian32(f.nFile) && b[6..8] == BigEndian16(f.nFrame) && b[8..10] == BigEndian16(f.status)
    && FromLE(b[10..12]) == Checksum(b[..10])
  }

  lemma FrameOnWire(f: Frame)
    ensures IsFrameImage(f, SendFrame(f))
  {
    SwappedBytes(f.nFile);
    SwappedBytes(f.nFrame);
    SwappedBytes(f.status);
    hide LE, ByteSwap, Checksum, BigEndian16, BigEndian32, Range;
    var b, body := SendFrame(f), FrameBody(SwapFrame(f));
    assert b[2..6] == LE(ByteSwap(f.nFile, 4), 4);
    assert b[6..8] == LE(ByteSwap(f.nFrame, 2), 2);
    assert b[8..10] == LE(ByteSwap(f.status, 2), 2);
    assert b[..10] == body && b[10..12] == LE(Checksum(body), 2);
    ChecksumFits(body);
    ReadsBack(Checksum(body), 2);
  }

  lemma StoredLoaded(b: seq<Byte>)
    requires |b| == FRAME_SIZE
    ensures FrameFits(LoadFrame(b)) && FrameBody(LoadFrame(b)) == b[..FRAME_SIZE - 2]
    ensures LE(LoadFrame(b).checkSum, 2) == b[FRAME_SIZE - 2..]
  {
    WritesBack(b[2..6]);
    WritesBack(b[6..8]);
    WritesBack(b[8..10]);
    WritesBack(b[10..12]);
    hide LE, FromLE, Range;
    assert b[..10] == [b[0], b[1]] + b[2..6] + b[6..8] + b[8..10];
  }

  /** Only bytes that a writer sends are accepted: sending the frame they give gives them back. */
  lemma AcceptedWasSent(b: seq<Byte>)
    requires |b| <= FRAME_SIZE && ReceiveFrame(b).Accepted?
    ensures SendFrame(ReceiveFrame(b).frame) == b
  {
    var g := LoadFrame(b);
    StoredLoaded(b);
    hide LE, LoadFrame, FrameBody, Checksum, Range, ByteSwap;
    SwapTwice(g.nFile, 4);
    SwapTwice(g.nFrame, 2);
    SwapTwice(g.status, 2);
    assert SwapFrame(SwapFrame(g)) == g;
    assert b == b[..FRAME_SIZE - 2] + b[FRAME_SIZE - 2..];
  }
}
