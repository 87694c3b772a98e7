/** The master's side of sending a picture: query, send, and send again until nothing is missing. */
module Master {
  import opened Words
  import opened Memory
  import opened Frames
  import opened DataFrames
  import opened Framing
  import opened Slave
  import opened Transfer

  // ---------------------------------------------------------------- preparing the frames

  /** Frames are numbered from 1, a single frame is number 0. */
  function IdToNFrame(id: nat, len: nat): (n: nat)
    ensures n < 0x1_0000
  {
    if len == 1 then id % 0x1_0000 else (id + 1) % 0x1_0000
  }

  function NFrameToId(n: nat, len: nat): (id: nat)
  {
    if len == 1 then n else (n - 1) % 0x1_0000
  }

  lemma NumbersAreDistinct(i: nat, len: nat)
    requires i < len < 0x1_0000
    ensures NFrameToId(IdToNFrame(i, len), len) == i
  {
  }

  /** A frame after `init_data_frames`. */
  ghost predicate Initialised(m: DataFrame, i: nat, n: nat, nFile: nat, flag: Byte, totalLen: nat)
  {
    m.header == HEADER && m.flag == flag && m.nFile == nFile && m.nFrame == IdToNFrame(i, n) && m.totalLen == totalLen
  }

  method InitDataFrames(frames: array<DataFrame>, nFile: nat, flag: Byte, totalLen: nat)
    requires frames.Length < 0x1_0000
    modifies frames
    ensures forall i | 0 <= i < frames.Length :: Initialised(frames[i], i, frames.Length, nFile, flag, totalLen)
    ensures forall i | 0 <= i < frames.Length ::
              var m, was := frames[i], old(frames[i]);
              m.nTotal == was.nTotal && m.dataLen == was.dataLen && m.data == was.data && m.checkSum == was.checkSum
  {
    for i := 0 to frames.Length
      invariant forall k | 0 <= k < i :: Initialised(frames[k], k, frames.Length, nFile, flag, totalLen)
      invariant forall k | 0 <= k < i ::
        var m, was := frames[k], old(frames[k]);
        m.nTotal == was.nTotal && m.dataLen == was.dataLen && m.data == was.data && m.checkSum == was.checkSum
      invariant forall k | i <= k < frames.Length :: frames[k] == old(frames[k])
    {
      frames[i] := frames[i].(header := HEADER, flag := flag, nFile := nFile,
                              nFrame := IdToNFrame(i, frames.Length), totalLen := totalLen);
    }
  }

  /** `alloc_data_frames` for bytes in memory: the frames are ready to send and hold the bytes chunk by chunk. */
  method AllocDataFrames(bytes: seq<Byte>, nFile: nat, flag: Byte, totalLen: nat) returns (frames: array<DataFrame>)
    requires 0 < |bytes| <= 65535 * DATA_MAX && nFile < Range(4) && totalLen < Range(4)
    ensures fresh(frames) && frames.Length == FrameCount(|bytes|)
    ensures PreparedAll(frames[..])
    ensures forall i | 0 <= i < frames.Length ::
              Holds(frames[i], bytes, i) && Initialised(frames[i], i, frames.Length, nFile, flag, totalLen)
    ensures forall i | 0 <= i < frames.Length :: frames[i].nFrame == if frames.Length == 1 then 0 else i + 1
  {
    frames := new DataFrame[FrameCount(|bytes|)](_ => EmptyFrame());
    InitDataFrames(frames, nFile, flag, totalLen);
    DataToFrames(bytes, frames);
    hide Chunk, FrameCount;
    RangesHold();
  }

  lemma RangesHold()
    ensures 0 < Range(2) == 0x1_0000 && 0 < Range(3)
  {
  }

  // ---------------------------------------------------------------- sending one picture

  /** What a send request needs of the slave's slots holds in every run. */
  lemma RoundHasRoom(album: seq<seq<DataFrame>>, events: seq<Event>, n: nat)
    requires AllLegal(album, events) && n < |events| && events[n].Sent? && events[n].f < PICTURES
    ensures var s, f, temp := Run(album, events, n), events[n].f, events[n].temp;
            && Sized(temp) && |temp| < 0x1_0000 && |temp| == |SlotsFor(s, f, |temp|)|
            && Processable(SlotsFor(s, f, |temp|), temp)
            && Run(album, events, n + 1) == OnSend(s, f, temp)
  {
    var s, f, temp := Run(album, events, n), events[n].f, events[n].temp;
    var ms, got := album[f], Got(album, events, n, f);
    assert Legal(album, events[n]);
    assert Picture(ms, s.streams[f], s.infos[f], got);
    StartOfRound(s, f, ms, got);
    EventKeepsConsistent(album, events, n, s);
    hide Run, Got, AllLegal, OnSend;
    assert PreparedAll(ms);
    FilledLengths(s, f, ms, temp, got);
  }

  lemma FilledLengths(s: State, f: nat, ms: seq<DataFrame>, temp: seq<seq<Byte>>, got: set<nat>)
    requires StateOk(s) && f < PICTURES && PreparedAll(ms) && Delivered(ms, temp)
    requires Picture(ms, s.streams[f], s.infos[f], got)
    ensures |temp| == |SlotsFor(s, f, |temp|)| && Processable(SlotsFor(s, f, |temp|), temp)
  {
    var slots := SlotsFor(s, f, |ms|);
    StartOfRound(s, f, ms, got);
    assert |slots| == |ms| == |temp|;
    RoundKeepsCopies(slots, ms, temp, Before(s.streams[f], got));
    var filled := Fill(slots, temp);
    NothingMissing(filled, |ms|);
    hide Picture, SlotsFor, Delivered, Rejected, Fill, Missing;
    assert filled[..|temp|] == filled;
  }

  /** The events from m on, up to n, are rounds of picture f. */
  ghost predicate Rounds(events: seq<Event>, m: nat, n: nat, f: nat)
    requires n <= |events|
  {
    forall k | m <= k < n :: events[k].Sent? && events[k].f == f
  }

  lemma NextRound(events: seq<Event>, m: nat, n: nat, f: nat, k: nat)
    requires n <= |events| && Rounds(events, m, n, f) && m <= k < n
    ensures events[k].Sent? && events[k].f == f
  {
  }

  /** Every frame of the picture comes through in one of the first n events. */
  ghost predicate Complete(album: seq<seq<DataFrame>>, events: seq<Event>, n: nat, f: nat)
    requires n <= |events| && f < |album|
  {
    album[f] != [] && forall i | 0 <= i < |album[f]| :: Arrived(events, n, f, i)
  }

  /** The picture is unreceived for as long as some frame has not come through. */
  lemma UnreceivedExactly(album: seq<seq<DataFrame>>, events: seq<Event>, n: nat, f: nat)
    requires AllLegal(album, events) && n <= |events| && f < PICTURES
    ensures GetStatus(Run(album, events, n), f) == UNRECEIVED <==> !Complete(album, events, n, f)
  {
    hide Run, GetStatus, Arrived;
    ProcessedExactly(album, events, n, f);
  }

  /**
   The master's loop for one picture. The events after the first n0 are what the channel makes of
   the master's rounds, fruitless ones included; in the end every frame has come through. The loop
   stops at the first reply that is not UNRECEIVED, and the slave then holds the whole picture.
   */
  method SendPicture(slave: SlaveProcess, album: seq<seq<DataFrame>>, events: seq<Event>, n0: nat, f: nat) returns (n: nat)
    requires AllLegal(album, events) && n0 <= |events| && f < PICTURES
    requires Rounds(events, n0, |events|, f) && Complete(album, events, |events|, f)
    requires slave.Valid() && slave.View() == Run(album, events, n0)
    modifies slave
    ensures n0 <= n <= |events| && slave.Valid() && slave.View() == Run(album, events, n)
    ensures GetStatus(slave.View(), f) == PROCESSED && slave.View().streams[f] == Payloads(album[f], |album[f]|)
    ensures forall k | n0 <= k < n :: GetStatus(Run(album, events, k), f) == UNRECEIVED
  {
    hide *;
    n := n0;
    var status, nFrame := slave.HandleQuery(f);
    while status == UNRECEIVED
      invariant n0 <= n <= |events| && slave.Valid() && slave.View() == Run(album, events, n)
      invariant status == GetStatus(slave.View(), f)
      invariant forall k | n0 <= k < n :: GetStatus(Run(album, events, k), f) == UNRECEIVED
      decreases |events| - n
    {
      UnreceivedExactly(album, events, n, f);
      NextRound(events, n0, |events|, f, n);
      RoundHasRoom(album, events, n);
      slave.HandleSend(f, events[n].temp);
      n := n + 1;
      status, nFrame := slave.HandleQuery(f);
    }
    ProcessedExactly(album, events, n, f);
  }

  /** A loop of rounds meets a reply that ends it if and only if the frames all come through. */
  lemma SendingEndsExactly(album: seq<seq<DataFrame>>, events: seq<Event>, n0: nat, f: nat)
    requires AllLegal(album, events) && n0 <= |events| && f < PICTURES
    ensures (exists n | n0 <= n <= |events| :: GetStatus(Run(album, events, n), f) != UNRECEIVED)
       <==> Complete(album, events, |events|, f)
  {
    forall n | n0 <= n <= |events|
      ensures GetStatus(Run(album, events, n), f) != UNRECEIVED ==> Complete(album, events, |events|, f)
    {
      UnreceivedExactly(album, events, n, f);
      hide Run, GetStatus, Brings, AllLegal;
      assert forall i :: Arrived(events, n, f, i) ==> Arrived(events, |events|, f, i);
    }
    UnreceivedExactly(album, events, |events|, f);
    hide Run, GetStatus, Complete;
  }

  /** Rounds that each bring a missing frame: while the picture is unreceived, fewer have passed than frames were missing. */
  lemma NotYet(album: seq<seq<DataFrame>>, events: seq<Event>, m: nat, n: nat, f: nat)
    requires AllLegal(album, events) && m <= n <= |events| && f < PICTURES && album[f] != []
    requires forall k | m <= k < n :: Helps(album, events, k, f)
    requires GetStatus(Run(album, events, n), f) == UNRECEIVED
    ensures n - m < |album[f]| - |Got(album, events, m, f)|
  {
    if n - m >= |album[f]| - |Got(album, events, m, f)| {
      RepairCompletes(album, events, m, n, f);
      hide Run, Got, Helps;
      assert false;
    }
  }

  /** Such rounds are no more than the frames the first reply left missing. */
  lemma RoundsBounded(album: seq<seq<DataFrame>>, events: seq<Event>, m: nat, n: nat, f: nat)
    requires AllLegal(album, events) && m < n <= |events| && f < PICTURES && album[f] != []
    requires forall k | m <= k < n :: Helps(album, events, k, f)
    requires forall k | m <= k < n :: GetStatus(Run(album, events, k), f) == UNRECEIVED
    ensures n - m <= |album[f]| - Run(album, events, m).infos[f].len
  {
    hide Run, Got, Helps, GetStatus, AllLegal;
    NotYet(album, events, m, n - 1, f);
    ReplyCounts(album, events, m, f);
  }
}
