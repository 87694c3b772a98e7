/** Data frames: wire format and the receiver's checks. */
module DataFrames {
  import opened Words
  import opened Memory
  import opened Crc
  import opened Frames

  const HEADER: seq<Byte> := [0x3A, 0x62, 0x04, 0x3F]
  const DATA_MAX: nat := 512
  const SIZE: nat := 534

  datatype DataFrame = DataFrame(header: seq<Byte>, nTotal: nat, flag: Byte, nFile: nat, nFrame: nat,
                                 totalLen: nat, dataLen: nat, data: seq<Byte>, checkSum: nat)

  ghost predicate Fits(f: DataFrame)
  {
    && |f.header| == 4 && |f.data| == DATA_MAX
    && f.nTotal < Range(3) && f.nFile < Range(4) && f.nFrame < Range(2)
    && f.totalLen < Range(4) && f.dataLen < Range(2)
  }

  // ---------------------------------------------------------------- the wire

  /** All of the packed structure before its check sum. */
  function Body(f: DataFrame): (r: seq<Byte>)
    requires |f.header| == 4 && |f.data| == DATA_MAX
    ensures |r| == SIZE - 2
  {
    f.header + LE(f.nTotal, 3) + [f.flag] + LE(f.nFile, 4) + LE(f.nFrame, 2) + LE(f.totalLen, 4) + LE(f.dataLen, 2) + f.data
  }

  function SwapFields(f: DataFrame): (r: DataFrame)
  {
    f.(nTotal := Swap24(f.nTotal), nFile := ByteSwap(f.nFile, 4), nFrame := ByteSwap(f.nFrame, 2),
       totalLen := ByteSwap(f.totalLen, 4), dataLen := ByteSwap(f.dataLen, 2))
  }

  /** The bytes `write_data_frame` sends. */
  function Send(f: DataFrame): (r: seq<Byte>)
    requires |f.header| == 4 && |f.data| == DATA_MAX
    ensures |r| == SIZE
  {
    var body := Body(SwapFields(f));
    body + LE(Checksum(body), 2)
  }

  function Load(b: seq<Byte>): (f: DataFrame)
    requires |b| == SIZE
  {
    DataFrame(b[..4], FromLE(b[4..7]), b[7], FromLE(b[8..12]), FromLE(b[12..14]), FromLE(b[14..18]), FromLE(b[18..20]),
              b[20..532], FromLE(b[532..534]))
  }

  /** The receiver's two checks. */
  predicate Intact(b: seq<Byte>)
    requires |b| == SIZE
  {
    b[..4] == HEADER && Checksum(b[..SIZE - 2]) == Load(b).checkSum
  }

  function Decode(b: seq<Byte>): (f: DataFrame)
    requires |b| == SIZE
  {
    SwapFields(Load(b))
  }

  lemma SwapFits(f: DataFrame)
    requires Fits(f)
    ensures Fits(SwapFields(f)) && SwapFields(SwapFields(f)) == f
  {
    hide Range, ByteSwap, Swap24;
    Swap24InMemory(f.nTotal);
    Swap24Twice(f.nTotal);
    SwapTwice(f.nFile, 4);
    SwapTwice(f.nFrame, 2);
    SwapTwice(f.totalLen, 4);
    SwapTwice(f.dataLen, 2);
  }

  lemma FieldsReadBack(f: DataFrame, c: nat)
    requires Fits(f) && c < Range(2)
    ensures FromLE(LE(f.nTotal, 3)) == f.nTotal && FromLE(LE(f.nFile, 4)) == f.nFile
    ensures FromLE(LE(f.nFrame, 2)) == f.nFrame && FromLE(LE(f.totalLen, 4)) == f.totalLen
    ensures FromLE(LE(f.dataLen, 2)) == f.dataLen && FromLE(LE(c, 2)) == c
  {
    hide LE, FromLE, Range;
    ReadsBack(f.nTotal, 3);
    ReadsBack(f.nFile, 4);
    ReadsBack(f.nFrame, 2);
    ReadsBack(f.totalLen, 4);
    ReadsBack(f.dataLen, 2);
    ReadsBack(c, 2);
  }

  lemma {:induction false} LoadStored(f: DataFrame, c: nat)
    requires Fits(f) && c < Range(2)
    ensures Load(Body(f) + LE(c, 2)) == f.(checkSum := c)
  {
    FieldsReadBack(f, c);
    hide LE, FromLE, Range;
    var b := Body(f) + LE(c, 2);
    assert b[..4] == f.header;
    assert b[4..7] == LE(f.nTotal, 3);
    assert b[8..12] == LE(f.nFile, 4);
    assert b[12..14] == LE(f.nFrame, 2);
    assert b[14..18] == LE(f.totalLen, 4);
    assert b[18..20] == LE(f.dataLen, 2);
    assert b[20..532] == f.data;
    assert b[532..534] == LE(c, 2);
  }

  /** Data frames survive the wire, the 24-bit counter included. */
  lemma DataFrameRoundTrip(f: DataFrame)
    requires Fits(f) && f.header == HEADER
    ensures Intact(Send(f)) && Decode(Send(f)) == f.(checkSum := Checksum(Body(SwapFields(f))))
  {
    SwapFits(f);
    hide LE, FromLE, Range, Checksum, Body, ByteSwap, Swap24;
    var g := SwapFields(f);
    var body := Body(g);
    ChecksumFits(body);
    LoadStored(g, Checksum(body));
    assert (body + LE(Checksum(body), 2))[..SIZE - 2] == body;
    assert Load(Send(f)).header == Send(f)[..4];
    hide Load;
  }

  /** A frame damaged within 16 consecutive bits, or in an odd number of bits, never passes the checks. */
  lemma DamageIsNoticed(f: DataFrame, b: seq<Byte>)
    requires Fits(f) && f.header == HEADER && |b| == SIZE && b != Send(f) && Detectable(b, Send(f))
    ensures !Intact(b)
  {
    DataFrameRoundTrip(f);
    hide Body, SwapFields, Checksum, Decode, Detectable, Send;
    DamageDetected(b, Send(f));
    ChecksumIsRegister(b, Send(f));
    IntactIsZeroResidue(Send(f));
    if Intact(b) {
      IntactIsZeroResidue(b);
    }
  }

  /** The checksum test is the zero residue of the register over the whole frame. */
  lemma IntactIsZeroResidue(b: seq<Byte>)
    requires |b| == SIZE
    ensures Checksum(b[..SIZE - 2]) == Load(b).checkSum <==> Register(b) == Zeros(16)
  {
    hide Checksum, Register;
    var body, c, d := b[..SIZE - 2], b[SIZE - 2], b[SIZE - 1];
    assert b == body + [c, d];
    ZeroResidue(body, c, d);
    assert b[532..534] == [c, d];
    TwoBytes(c, d);
  }

  // ---------------------------------------------------------------- the bytes on the wire

  /** The frame as bytes: every number high byte first, the check sum last and low byte first. */
  ghost predicate IsImage(f: DataFrame, b: seq<Byte>)
  {
    && |b| == 534 && b[..4] == f.header && b[4..7] == BigEndian24(f.nTotal) && b[7] == f.flag
    && b[8..12] == BigEndian32(f.nFile) && b[12..14] == BigEndian16(f.nFrame)
    && b[14..18] == BigEndian32(f.totalLen) && b[18..20] == BigEndian16(f.dataLen) && b[20..532] == f.data
    && FromLE(b[532..534]) == Checksum(b[..532])
  }

  lemma DataFrameOnWire(f: DataFrame)
    requires Fits(f)
    ensures IsImage(f, Send(f))
  {
    SwappedBytes(f.nTotal);
    SwappedBytes(f.nFile);
    SwappedBytes(f.nFrame);
    SwappedBytes(f.totalLen);
    SwappedBytes(f.dataLen);
    hide LE, ByteSwap, Swap24, Checksum, BigEndian16, BigEndian24, BigEndian32, Range;
    var body := Body(SwapFields(f));
    BodyFields(SwapFields(f), LE(Checksum(body), 2));
    hide Body;
    var b := Send(f);
    assert b[..532] == body && b[532..534] == LE(Checksum(body), 2);
    ChecksumFits(body);
    ReadsBack(Checksum(body), 2);
  }

  lemma BodyFields(f: DataFrame, tail: seq<Byte>)
    requires |f.header| == 4 && |f.data| == DATA_MAX && |tail| == 2
    ensures var b := Body(f) + tail;
            && b[..4] == f.header && b[4..7] == LE(f.nTotal, 3) && b[7] == f.flag && b[8..12] == LE(f.nFile, 4)
            && b[12..14] == LE(f.nFrame, 2) && b[14..18] == LE(f.totalLen, 4) && b[18..20] == LE(f.dataLen, 2)
            && b[20..532] == f.data
  {
    hide LE;
  }

  lemma StoredLoaded(b: seq<Byte>)
    requires |b| == SIZE
    ensures Fits(Load(b)) && Body(Load(b)) == b[..SIZE - 2] && LE(Load(b).checkSum, 2) == b[SIZE - 2..]
  {
    WritesBack(b[4..7]);
    WritesBack(b[8..12]);
    WritesBack(b[12..14]);
    WritesBack(b[14..18]);
    WritesBack(b[18..20]);
    WritesBack(b[532..534]);
    hide LE, FromLE, Range;
    assert b[..532] == b[..4] + b[4..7] + [b[7]] + b[8..12] + b[12..14] + b[14..18] + b[18..20] + b[20..532];
  }

  /** Only bytes that a writer sends are intact: sending the frame they decode to gives them back. */
  lemma IntactWasSent(b: seq<Byte>)
    requires |b| == SIZE && Intact(b)
    ensures Fits(Decode(b)) && Send(Decode(b)) == b
  {
    StoredLoaded(b);
    hide LE, Load, Body, Checksum, Range;
    SwapFits(Load(b));
    assert b == b[..SIZE - 2] + b[SIZE - 2..];
    hide SwapFields, Fits;
  }

  /** The checks are exactly the fixed header and a register that ends at zero. */
  lemma IntactExactly(b: seq<Byte>)
    requires |b| == SIZE
    ensures Intact(b) <==> b[..4] == [0x3A, 0x62, 0x04, 0x3F] && Register(b) == Zeros(16)
  {
    hide Checksum, Register, Load;
    IntactIsZeroResidue(b);
  }
}
