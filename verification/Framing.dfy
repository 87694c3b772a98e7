/** Cutting a byte string into data frames and putting it together again. */
module Framing {
  import opened Words
  import opened DataFrames

  // ---------------------------------------------------------------- putting together

  /** The valid bytes of a frame; a frame's buffer holds no more than DATA_MAX. */
  function Payload(f: DataFrame): (r: seq<Byte>)
  {
    if f.dataLen <= |f.data| then f.data[..f.dataLen] else f.data
  }

  ghost predicate LengthsOk(frames: seq<DataFrame>)
  {
    forall i | 0 <= i < |frames| :: |frames[i].data| == DATA_MAX && frames[i].dataLen <= DATA_MAX
  }

  /** The payloads of the first n frames, one after another. */
  function Payloads(frames: seq<DataFrame>, n: nat): (r: seq<Byte>)
    requires n <= |frames|
  {
    if n == 0 then [] else Payloads(frames, n - 1) + Payload(frames[n - 1])
  }

  /** `data_frame_to_data_len`. */
  method DataLength(frames: seq<DataFrame>) returns (len: nat)
    requires LengthsOk(frames)
    ensures len == |Payloads(frames, |frames|)|
  {
    len := 0;
    for i := 0 to |frames|
      invariant len == |Payloads(frames, i)|
    {
      len := len + frames[i].dataLen;
    }
  }

  lemma PayloadOf(f: DataFrame)
    requires |f.data| == DATA_MAX && f.dataLen <= DATA_MAX
    ensures Payload(f) == f.data[..f.dataLen] && |Payload(f)| == f.dataLen
  {
  }

  /** `data_frames_to_data`: copies every payload into the buffer. */
  method FramesToData(frames: seq<DataFrame>, addr: array<Byte>)
    requires LengthsOk(frames) && addr.Length >= |Payloads(frames, |frames|)|
    modifies addr
    ensures addr[..|Payloads(frames, |frames|)|] == Payloads(frames, |frames|)
    ensures forall k | |Payloads(frames, |frames|)| <= k < addr.Length :: addr[k] == old(addr[k])
  {
    var p := 0;
    hide Payload;
    for i := 0 to |frames|
      invariant p == |Payloads(frames, i)| && p <= addr.Length
      invariant addr[..p] == Payloads(frames, i)
      invariant forall k | p <= k < addr.Length :: addr[k] == old(addr[k])
    {
      PayloadsGrow(frames, i + 1, |frames|);
      PayloadOf(frames[i]);
      CopyInto(addr, p, frames[i].data[..frames[i].dataLen]);
      p := p + frames[i].dataLen;
    }
  }

  lemma {:induction false} PayloadsGrow(frames: seq<DataFrame>, m: nat, n: nat)
    requires m <= n <= |frames|
    ensures |Payloads(frames, m)| <= |Payloads(frames, n)|
    decreases n - m
  {
    if m < n {
      PayloadsGrow(frames, m, n - 1);
    }
  }

  /** `memcpy`. */
  method CopyInto(addr: array<Byte>, p: nat, bytes: seq<Byte>)
    requires p + |bytes| <= addr.Length
    modifies addr
    ensures addr[..p + |bytes|] == old(addr[..p]) + bytes
    ensures forall k | p + |bytes| <= k < addr.Length :: addr[k] == old(addr[k])
  {
    for k := 0 to |bytes|
      invariant addr[..p + k] == old(addr[..p]) + bytes[..k]
      invariant forall j | p + k <= j < addr.Length :: addr[j] == old(addr[j])
    {
      addr[p + k] := bytes[k];
      assert addr[..p + k + 1] == addr[..p + k] + [bytes[k]];
    }
  }

  // ---------------------------------------------------------------- cutting

  /** How many frames n bytes need. */
  function FrameCount(n: nat): (c: nat)
    ensures n > 0 ==> c > 0 && DATA_MAX * (c - 1) < n <= DATA_MAX * c
  {
    if n == 0 then 0 else (n - 1) / DATA_MAX + 1
  }

  function ChunkLength(n: nat, i: nat): (len: nat)
    requires i < FrameCount(n)
    ensures 0 < len <= DATA_MAX && DATA_MAX * i + len <= n
    ensures i + 1 < FrameCount(n) ==> len == DATA_MAX
    ensures i + 1 == FrameCount(n) ==> DATA_MAX * i + len == n
  {
    if i + 1 < FrameCount(n) then DATA_MAX else n - DATA_MAX * i
  }

  function Padding(n: nat): (r: seq<Byte>)
    ensures |r| == n && forall i | 0 <= i < n :: r[i] == 0
  {
    seq(n, _ => 0)
  }

  /** Chunk i of the bytes, zeros filling up the frame's buffer. */
  function Chunk(bytes: seq<Byte>, i: nat): (r: seq<Byte>)
    requires i < FrameCount(|bytes|)
    ensures |r| == DATA_MAX
  {
    var len := ChunkLength(|bytes|, i);
    bytes[DATA_MAX * i..DATA_MAX * i + len] + Padding(DATA_MAX - len)
  }

  /** The frame holds chunk i of the bytes; nothing is said about its other fields. */
  ghost predicate Holds(f: DataFrame, bytes: seq<Byte>, i: nat)
    requires i < FrameCount(|bytes|)
  {
    f.dataLen == ChunkLength(|bytes|, i) && f.data == Chunk(bytes, i)
  }

  /** Byte by byte: the chunk's bytes from 512 i on, then zeros. */
  lemma HoldsMeans(f: DataFrame, bytes: seq<Byte>, i: nat)
    requires i < FrameCount(|bytes|)
    ensures Holds(f, bytes, i) <==>
            && f.dataLen == ChunkLength(|bytes|, i) && |f.data| == 512
            && (forall j | 0 <= j < f.dataLen :: f.data[j] == bytes[512 * i + j])
            && forall j | f.dataLen <= j < 512 :: f.data[j] == 0
  {
    var c, len := Chunk(bytes, i), ChunkLength(|bytes|, i);
    assert forall j | 0 <= j < len :: c[j] == bytes[512 * i + j];
    assert forall j | len <= j < 512 :: c[j] == 0;
    hide Chunk, ChunkLength, FrameCount;
    if |f.data| == 512 && (forall j | 0 <= j < len :: f.data[j] == bytes[512 * i + j]) && (forall j | len <= j < 512 :: f.data[j] == 0) {
      assert forall j | 0 <= j < 512 :: f.data[j] == c[j];
      assert f.data == c;
    }
  }

  /** `data_to_data_frames`: fills data and data_len of every frame, leaving the rest alone. */
  method DataToFrames(bytes: seq<Byte>, frames: array<DataFrame>)
    requires 0 < |bytes| <= 65535 * DATA_MAX && frames.Length == FrameCount(|bytes|)
    modifies frames
    ensures forall i | 0 <= i < frames.Length :: Holds(frames[i], bytes, i)
    ensures forall i | 0 <= i < frames.Length ::
              frames[i] == old(frames[i]).(data := frames[i].data, dataLen := frames[i].dataLen)
  {
    var i, p := 0, 0;
    var n := FrameCount(|bytes|);
    while i < n - 1
      invariant 0 <= i <= n - 1 && p == DATA_MAX * i
      invariant forall k | 0 <= k < i :: Holds(frames[k], bytes, k)
      invariant forall k | 0 <= k < i :: frames[k] == old(frames[k]).(data := frames[k].data, dataLen := frames[k].dataLen)
      invariant forall k | i <= k < n :: frames[k] == old(frames[k])
    {
      assert bytes[p..p + DATA_MAX] == Chunk(bytes, i);
      frames[i] := frames[i].(data := bytes[p..p + DATA_MAX], dataLen := DATA_MAX);
      p := p + DATA_MAX;
      i := i + 1;
    }
    var len := |bytes| - i * DATA_MAX;
    frames[i] := frames[i].(dataLen := len, data := bytes[p..p + len] + Padding(DATA_MAX - len));
  }

  /** Where chunk number n ends. */
  function End(total: nat, n: nat): (e: nat)
    requires n <= FrameCount(total)
    ensures e <= total
  {
    if n == 0 then 0 else DATA_MAX * (n - 1) + ChunkLength(total, n - 1)
  }

  lemma EndsMeet(total: nat, n: nat)
    requires 0 < n <= FrameCount(total)
    ensures End(total, n - 1) == DATA_MAX * (n - 1) && End(total, n) == End(total, n - 1) + ChunkLength(total, n - 1)
    ensures End(total, FrameCount(total)) == total
  {
  }

  lemma SlicesJoin(bytes: seq<Byte>, a: nat, b: nat, c: nat)
    requires a <= b <= c <= |bytes|
    ensures bytes[a..b] + bytes[b..c] == bytes[a..c]
  {
  }

  lemma PayloadIs(f: DataFrame, bytes: seq<Byte>, i: nat)
    requires i < FrameCount(|bytes|) && Holds(f, bytes, i)
    ensures Payload(f) == bytes[DATA_MAX * i..DATA_MAX * i + ChunkLength(|bytes|, i)]
  {
  }

  /** Cutting and putting together is the identity: n frames give the bytes up to the n-th end. */
  lemma {:induction false} FramingRoundTrip(frames: seq<DataFrame>, bytes: seq<Byte>, n: nat)
    requires n <= |frames| == FrameCount(|bytes|) && forall i | 0 <= i < |frames| :: Holds(frames[i], bytes, i)
    ensures Payloads(frames, n) == bytes[..End(|bytes|, n)]
    ensures n == |frames| ==> Payloads(frames, n) == bytes
  {
    hide Holds, Payload, ChunkLength, FrameCount;
    if n > 0 {
      FramingRoundTrip(frames, bytes, n - 1);
      EndsMeet(|bytes|, n);
      PayloadIs(frames[n - 1], bytes, n - 1);
      SlicesJoin(bytes, 0, End(|bytes|, n - 1), End(|bytes|, n));
    } else {
      NoFrames(bytes);
    }
  }

  lemma NoFrames(bytes: seq<Byte>)
    ensures FrameCount(|bytes|) == 0 ==> bytes == []
    ensures End(|bytes|, 0) == 0
  {
  }

  // ---------------------------------------------------------------- frames read from a file

  /**
   What `fd_to_data_frames` leaves in frame i: the inner loop variable hides the outer one,
   so the final clearing hits frame 0, from the length of the last frame on.
   */
  function FileFrame(f: DataFrame, bytes: seq<Byte>, i: nat): (r: DataFrame)
    requires i < FrameCount(|bytes|) && |f.data| == DATA_MAX
    ensures |r.data| == DATA_MAX && r.dataLen == ChunkLength(|bytes|, i)
  {
    var read, last := ReadFrame(f, bytes, i), ChunkLength(|bytes|, FrameCount(|bytes|) - 1);
    if i == 0 then read.(data := read.data[..last] + Padding(DATA_MAX - last)) else read
  }

  /** Frame i after its chunk has been read into the start of its buffer. */
  function ReadFrame(f: DataFrame, bytes: seq<Byte>, i: nat): (r: DataFrame)
    requires i < FrameCount(|bytes|) && |f.data| == DATA_MAX
    ensures |r.data| == DATA_MAX && r.dataLen == ChunkLength(|bytes|, i)
  {
    var len := ChunkLength(|bytes|, i);
    f.(dataLen := len, data := bytes[DATA_MAX * i..DATA_MAX * i + len] + f.data[len..])
  }

  /** Byte by byte: the chunk over what was there, and in frame 0 zeros from the length of the last chunk on. */
  lemma FileFrameMeans(f: DataFrame, bytes: seq<Byte>, i: nat, j: nat)
    requires i < FrameCount(|bytes|) && |f.data| == DATA_MAX && j < 512
    ensures var last := ChunkLength(|bytes|, FrameCount(|bytes|) - 1);
            FileFrame(f, bytes, i).data[j] ==
            if i == 0 && j >= last then 0 else if j < ChunkLength(|bytes|, i) then bytes[512 * i + j] else f.data[j]
  {
    hide ChunkLength, FrameCount;
  }

  method FileToFrames(file: seq<Byte>, frames: array<DataFrame>)
    requires 0 < |file| <= 65535 * DATA_MAX && frames.Length == FrameCount(|file|)
    requires forall i | 0 <= i < frames.Length :: |frames[i].data| == DATA_MAX
    modifies frames
    ensures forall i | 0 <= i < frames.Length :: frames[i] == FileFrame(old(frames[i]), file, i)
  {
    hide ChunkLength, FrameCount, Padding;
    var size := 0;
    for i := 0 to frames.Length
      invariant forall k | i <= k < frames.Length :: frames[k] == old(frames[k])
      invariant i > 0 ==> size == ChunkLength(|file|, i - 1)
      invariant forall k | 0 <= k < i :: frames[k] == ReadFrame(old(frames[k]), file, k)
    {
      size := ChunkLength(|file|, i);
      frames[i] := frames[i].(data := file[DATA_MAX * i..DATA_MAX * i + size] + frames[i].data[size..], dataLen := size);
    }
    frames[0] := frames[0].(data := frames[0].data[..size] + Padding(DATA_MAX - size));
  }

  /** Frames as `fd_to_data_frames` leaves them. */
  ghost predicate FromFile(frames: seq<DataFrame>, was: seq<DataFrame>, file: seq<Byte>)
  {
    && |frames| == |was| == FrameCount(|file|)
    && forall i | 0 <= i < |frames| :: |was[i].data| == DATA_MAX && frames[i] == FileFrame(was[i], file, i)
  }

  lemma LaterPayload(f: DataFrame, file: seq<Byte>, i: nat)
    requires 0 < i < FrameCount(|file|) && |f.data| == DATA_MAX
    ensures Payload(FileFrame(f, file, i)) == file[DATA_MAX * i..DATA_MAX * i + ChunkLength(|file|, i)]
  {
    hide ChunkLength, FrameCount;
  }

  lemma {:induction false} FilePayloads(frames: seq<DataFrame>, was: seq<DataFrame>, file: seq<Byte>, n: nat)
    requires FromFile(frames, was, file) && 0 < n <= |frames|
    ensures End(|file|, 1) <= End(|file|, n)
    ensures Payloads(frames, n) == Payload(frames[0]) + file[End(|file|, 1)..End(|file|, n)]
  {
    hide FileFrame, Payload, ChunkLength, FrameCount, End;
    EndsMeet(|file|, n);
    if n == 1 {
      assert Payloads(frames, 0) == [];
      assert Payloads(frames, 1) == Payload(frames[0]);
    } else {
      FilePayloads(frames, was, file, n - 1);
      LaterPayload(was[n - 1], file, n - 1);
      SlicesJoin(file, End(|file|, 1), End(|file|, n - 1), End(|file|, n));
    }
  }

  /** The payload of frame 0 is the start of the file, cleared from the length of the last chunk on. */
  lemma FirstPayload(f: DataFrame, file: seq<Byte>)
    requires |file| > 0 && |f.data| == DATA_MAX
    ensures var first, last := ChunkLength(|file|, 0), ChunkLength(|file|, FrameCount(|file|) - 1);
            last <= first && Payload(FileFrame(f, file, 0)) == file[..last] + Padding(first - last)
  {
  }

  /** The bytes the misplaced clearing destroys: all of them zero, or none destroyed. */
  predicate Harmless(file: seq<Byte>)
  {
    |file| <= DATA_MAX || |file| % DATA_MAX == 0 || forall k | |file| % DATA_MAX <= k < DATA_MAX :: file[k] == 0
  }

  lemma LastChunk(n: nat)
    requires n > 0
    ensures ChunkLength(n, FrameCount(n) - 1) == if n % DATA_MAX == 0 then DATA_MAX else n % DATA_MAX
    ensures ChunkLength(n, 0) == if n <= DATA_MAX then n else DATA_MAX
  {
  }

  lemma ClearedMatches(file: seq<Byte>, last: nat, first: nat)
    requires last <= first <= |file|
    ensures (file[..last] + Padding(first - last)) + file[first..] == file <==> forall k | last <= k < first :: file[k] == 0
  {
    var joined := (file[..last] + Padding(first - last)) + file[first..];
    if joined == file {
      forall k | last <= k < first ensures file[k] == 0 {
        assert joined[k] == 0;
      }
    }
  }

  lemma HarmlessMeans(file: seq<Byte>)
    requires |file| > 0
    ensures var first, last := ChunkLength(|file|, 0), ChunkLength(|file|, FrameCount(|file|) - 1);
            Harmless(file) <==> forall k | last <= k < first :: file[k] == 0
  {
    LastChunk(|file|);
    hide ChunkLength, FrameCount;
  }

  /** Frames read from a file carry the file exactly when the clearing does no harm. */
  lemma FileFramingFaithful(frames: seq<DataFrame>, was: seq<DataFrame>, file: seq<Byte>)
    requires FromFile(frames, was, file) && |file| > 0
    ensures Payloads(frames, |frames|) == file <==> Harmless(file)
  {
    hide FileFrame, Payload, ChunkLength, FrameCount, Payloads, Harmless, End;
    var first, last := ChunkLength(|file|, 0), ChunkLength(|file|, FrameCount(|file|) - 1);
    FilePayloads(frames, was, file, |frames|);
    FirstPayload(was[0], file);
    EndsMeet(|file|, 1);
    NoFrames(file);
    EndsMeet(|file|, |frames|);
    assert file[first..] == file[first..|file|];
    HarmlessMeans(file);
    ClearedMatches(file, last, first);
  }

  /** 513 ones: the file's own frames do not carry it. */
  lemma FileFramingFails(frames: seq<DataFrame>, was: seq<DataFrame>)
    requires FromFile(frames, was, seq(513, _ => 1))
    ensures Payloads(frames, |frames|) != seq(513, _ => 1)
  {
    var file: seq<Byte> := seq(513, _ => 1);
    assert file[1] == 1;
    FileFramingFaithful(frames, was, file);
  }
}
