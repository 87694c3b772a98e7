/** The slave's state, its reactions to the master's requests, and the repair of missing frames. */
module Slave {
  import opened Words
  import opened DataFrames
  import opened Framing

  const PICTURES: nat := 8
  const UNRECEIVED: nat := 0xAAAA
  const PROCESSING: nat := 0xAA55
  const PROCESSED: nat := 0x5555

  /** The slots for a picture's frames, once a request has allocated them. */
  datatype Slots = Free | Held(frames: seq<DataFrame>)

  datatype Info = Info(slots: Slots, len: nat, totalLen: nat)

  datatype State = State(streams: seq<seq<Byte>>, infos: seq<Info>)

  ghost predicate StateOk(s: State)
  {
    |s.streams| == |s.infos| == PICTURES
  }

  function Initial(): (s: State)
    ensures StateOk(s)
  {
    State(seq(PICTURES, _ => []), seq(PICTURES, _ => Info(Free, 0, 0)))
  }

  function GetStatus(s: State, f: nat): (r: nat)
    requires StateOk(s)
  {
    if f >= PICTURES then UNRECEIVED
    else if |s.streams[f]| > 0 then PROCESSED
    else if s.infos[f].len == s.infos[f].totalLen && s.infos[f].totalLen != 0 then PROCESSING
    else UNRECEIVED
  }

  // ---------------------------------------------------------------- filling slots

  /** A slot is filled when its length is not zero. */
  predicate Full(f: DataFrame)
  {
    f.dataLen > 0
  }

  /** Zeroed memory. */
  function EmptyFrame(): (f: DataFrame)
    ensures !Full(f)
  {
    DataFrame(Padding(4), 0, 0, 0, 0, 0, 0, Padding(DATA_MAX), 0)
  }

  ghost predicate Sized(temp: seq<seq<Byte>>)
  {
    forall i | 0 <= i < |temp| :: |temp[i]| == SIZE
  }

  function FillSlot(slot: DataFrame, b: seq<Byte>): (r: DataFrame)
    requires |b| == SIZE
  {
    if !Full(slot) && Intact(b) then Decode(b) else slot
  }

  /** Every slot after one round of frames. */
  function Fill(slots: seq<DataFrame>, temp: seq<seq<Byte>>): (r: seq<DataFrame>)
    requires |temp| <= |slots| && Sized(temp)
    ensures |r| == |slots|
    ensures forall i | 0 <= i < |temp| :: r[i] == FillSlot(slots[i], temp[i])
    ensures forall i | |temp| <= i < |slots| :: r[i] == slots[i]
  {
    seq(|slots|, i requires 0 <= i < |slots| => if i < |temp| then FillSlot(slots[i], temp[i]) else slots[i])
  }

  /** How many of the first n slots are empty. */
  function Missing(slots: seq<DataFrame>, n: nat): (c: nat)
    requires n <= |slots|
    ensures c <= n
  {
    if n == 0 then 0 else Missing(slots, n - 1) + (if Full(slots[n - 1]) then 0 else 1)
  }

  /** How many of the first n slots stay empty because their frame failed the checks. */
  function Rejected(slots: seq<DataFrame>, temp: seq<seq<Byte>>, n: nat): (c: nat)
    requires n <= |temp| <= |slots| && Sized(temp)
    ensures c <= n
  {
    if n == 0 then 0
    else Rejected(slots, temp, n - 1) + (if !Full(slots[n - 1]) && !Intact(temp[n - 1]) then 1 else 0)
  }

  /** `count_unreceived_data_frames`. */
  method CountUnreceived(slots: seq<DataFrame>) returns (sum: nat)
    ensures sum == Missing(slots, |slots|)
  {
    sum := 0;
    for i := 0 to |slots|
      invariant sum == Missing(slots, i)
    {
      if slots[i].dataLen == 0 {
        sum := sum + 1;
      }
    }
  }

  /** `receive_data_frames` once the bytes are in: fills the slots in place, counts the failures. */
  method ReceiveDataFrames(slots: array<DataFrame>, temp: seq<seq<Byte>>) returns (sum: nat)
    requires |temp| <= slots.Length && |temp| < 0x1_0000 && Sized(temp)
    modifies slots
    ensures slots[..] == Fill(old(slots[..]), temp)
    ensures sum == Rejected(old(slots[..]), temp, |temp|)
  {
    hide Intact, Decode;
    sum := 0;
    ghost var was := slots[..];
    for i := 0 to |temp|
      invariant forall k | 0 <= k < i :: slots[k] == FillSlot(was[k], temp[k])
      invariant forall k | i <= k < slots.Length :: slots[k] == was[k]
      invariant sum == Rejected(was, temp, i)
    {
      if slots[i].dataLen > 0 {
        continue;
      }
      if !Intact(temp[i]) {
        sum := sum + 1;
        continue;
      }
      slots[i] := Decode(temp[i]);
    }
  }

  /** The first n intact frames for empty slots carry something: what the repair counts on. */
  ghost predicate NoEmptyFrames(slots: seq<DataFrame>, temp: seq<seq<Byte>>, n: nat)
    requires n <= |temp| <= |slots| && Sized(temp)
  {
    forall i | 0 <= i < n :: !Full(slots[i]) && Intact(temp[i]) ==> Full(Decode(temp[i]))
  }

  /** The count returned is what is missing afterwards, exactly when no empty frame is let in. */
  lemma {:induction false} CountIsExact(slots: seq<DataFrame>, temp: seq<seq<Byte>>, n: nat)
    requires n <= |temp| == |slots| && Sized(temp)
    ensures Rejected(slots, temp, n) <= Missing(Fill(slots, temp), n)
    ensures Rejected(slots, temp, n) == Missing(Fill(slots, temp), n)
       <==> NoEmptyFrames(slots, temp, n)
  {
    hide Intact, Decode, Full;
    if n > 0 {
      CountIsExact(slots, temp, n - 1);
    }
  }

  /** A round never empties a slot, so less is missing; a missing frame that arrives makes it strictly less. */
  lemma {:induction false} RepairProgress(slots: seq<DataFrame>, temp: seq<seq<Byte>>, n: nat)
    requires n <= |temp| == |slots| && Sized(temp)
    ensures forall i | 0 <= i < n && Full(slots[i]) :: Fill(slots, temp)[i] == slots[i]
    ensures Missing(Fill(slots, temp), n) <= Missing(slots, n)
    ensures (exists i | 0 <= i < n :: !Full(slots[i]) && Intact(temp[i]) && Full(Decode(temp[i])))
       <==> Missing(Fill(slots, temp), n) < Missing(slots, n)
  {
    hide Intact, Decode;
    if n > 0 {
      RepairProgress(slots, temp, n - 1);
    }
  }

  // ---------------------------------------------------------------- requests

  /** The slots a send request works on: a processed picture starts over. */
  function SlotsFor(s: State, f: nat, n: nat): (r: seq<DataFrame>)
    requires StateOk(s) && f < PICTURES
  {
    if GetStatus(s, f) == PROCESSED || s.infos[f].slots.Free? then seq(n, _ => EmptyFrame())
    else s.infos[f].slots.frames
  }

  /** One send request with its data frames, in a dry run. */
  function OnSend(s: State, f: nat, temp: seq<seq<Byte>>): (r: State)
    requires StateOk(s) && Sized(temp) && (f < PICTURES ==> |temp| <= |SlotsFor(s, f, |temp|)|)
    ensures StateOk(r)
  {
    if f >= PICTURES then s
    else
      var was := SlotsFor(s, f, |temp|);
      var slots := Fill(was, temp);
      var sum := Rejected(was, temp, |temp|);
      var info := Info(Held(slots), |temp| - sum, |temp|);
      State(if sum == 0 then s.streams[f := Payloads(slots, |temp|)] else s.streams, s.infos[f := info])
  }

  /** When nothing is missing, the lengths in the slots fit their buffers. */
  ghost predicate Processable(slots: seq<DataFrame>, temp: seq<seq<Byte>>)
    requires |temp| <= |slots| && Sized(temp)
  {
    Rejected(slots, temp, |temp|) == 0 ==> LengthsOk(Fill(slots, temp)[..|temp|])
  }

  /** All frames are there after the round, and none of them carries anything. */
  ghost predicate CarriesNothing(was: seq<DataFrame>, temp: seq<seq<Byte>>)
    requires |temp| <= |was| && Sized(temp)
  {
    Rejected(was, temp, |temp|) == 0 && Payloads(Fill(was, temp), |temp|) == []
  }

  /** A request leaves its picture in process exactly when all its frames are there and carry nothing. */
  lemma ProcessingExactly(s: State, f: nat, temp: seq<seq<Byte>>)
    requires StateOk(s) && f < PICTURES && Sized(temp) && |temp| <= |SlotsFor(s, f, |temp|)|
    ensures GetStatus(OnSend(s, f, temp), f) == PROCESSING <==>
            temp != [] && CarriesNothing(SlotsFor(s, f, |temp|), temp)
  {
    hide SlotsFor, Fill, Payloads, Rejected;
  }

  /** It takes back a processed picture under the same condition, a request for no frames included. */
  lemma ProcessedLeftExactly(s: State, f: nat, temp: seq<seq<Byte>>)
    requires StateOk(s) && f < PICTURES && Sized(temp) && |temp| <= |SlotsFor(s, f, |temp|)|
    requires GetStatus(s, f) == PROCESSED
    ensures GetStatus(OnSend(s, f, temp), f) != PROCESSED <==> CarriesNothing(SlotsFor(s, f, |temp|), temp)
  {
    hide SlotsFor, Fill, Payloads, Rejected;
  }

  /** The condition slot by slot: nothing held before, and every frame intact and empty. */
  lemma {:induction false} CarriesNothingMeans(was: seq<DataFrame>, temp: seq<seq<Byte>>, n: nat)
    requires n <= |temp| <= |was| && Sized(temp) && forall i | 0 <= i < |was| :: |was[i].data| == DATA_MAX
    ensures Rejected(was, temp, n) == 0 && Payloads(Fill(was, temp), n) == []
       <==> forall i | 0 <= i < n :: (!Full(was[i]) && Intact(temp[i]) && !Full(Decode(temp[i])))
  {
    hide FillSlot, Intact, Decode, Payload, Full;
    if n > 0 {
      CarriesNothingMeans(was, temp, n - 1);
      SlotCarriesNothing(was[n - 1], temp[n - 1]);
    }
  }

  lemma SlotCarriesNothing(slot: DataFrame, b: seq<Byte>)
    requires |slot.data| == DATA_MAX && |b| == SIZE
    ensures (Full(slot) || Intact(b)) && Payload(FillSlot(slot, b)) == []
       <==> !Full(slot) && Intact(b) && !Full(Decode(b))
  {
    assert |Decode(b).data| == DATA_MAX;
    hide Intact, Decode;
  }

  lemma EmptyFrameCarriesNothing(m: DataFrame)
    requires Fits(m) && m.header == HEADER && m.dataLen == 0
    ensures CarriesNothing([EmptyFrame()], [Send(m)])
  {
    hide Intact, Decode, Send, Rejected, Payloads, Fill, SwapFields, Body;
    DataFrameRoundTrip(m);
    assert Decode(Send(m)).dataLen == 0;
    hide Fits;
    CarriesNothingMeans([EmptyFrame()], [Send(m)], 1);
  }

  /** An intact frame without data shows the status, even on a picture that was processed before. */
  lemma EmptyFrameShowsProcessing(s: State, f: nat, m: DataFrame)
    requires StateOk(s) && f < PICTURES && (GetStatus(s, f) == PROCESSED || s.infos[f].slots.Free?)
    requires Fits(m) && m.header == HEADER && m.dataLen == 0
    ensures GetStatus(OnSend(s, f, [Send(m)]), f) == PROCESSING
  {
    hide Send, OnSend, EmptyFrame, CarriesNothing;
    assert SlotsFor(s, f, 1) == [EmptyFrame()];
    hide SlotsFor, GetStatus;
    EmptyFrameCarriesNothing(m);
    ProcessingExactly(s, f, [Send(m)]);
  }

  class SlaveProcess {
    var streams: seq<seq<Byte>>
    var infos: seq<Info>

    function View(): (s: State)
      reads this
    {
      State(streams, infos)
    }

    ghost predicate Valid()
      reads this
    {
      StateOk(View())
    }

    constructor ()
      ensures Valid() && View() == Initial()
    {
      streams := seq(PICTURES, _ => []);
      infos := seq(PICTURES, _ => Info(Free, 0, 0));
    }

    /** The reply to a query: the status and the number of frames received so far. */
    method HandleQuery(nFile: nat) returns (status: nat, nFrame: nat)
      requires Valid()
      ensures status == GetStatus(View(), nFile) && (nFile >= 8 ==> status == UNRECEIVED)
      ensures nFrame == if nFile < PICTURES then infos[nFile].len else 0
    {
      status := GetStatus(View(), nFile);
      if nFile < PICTURES {
        nFrame := infos[nFile].len;
      } else {
        nFrame := 0;
      }
    }

    method HandleSend(nFile: nat, temp: seq<seq<Byte>>)
      requires Valid() && Sized(temp) && |temp| < 0x1_0000
      requires nFile < PICTURES ==> |temp| <= |SlotsFor(View(), nFile, |temp|)|
      requires nFile < PICTURES ==> Processable(SlotsFor(View(), nFile, |temp|), temp)
      modifies this
      ensures Valid() && View() == OnSend(old(View()), nFile, temp)
      ensures forall g | 0 <= g < 8 && g != nFile :: streams[g] == old(streams[g]) && infos[g] == old(infos[g])
    {
      hide Intact, Decode;
      if nFile >= PICTURES {
        return;
      }
      var was := SlotsFor(View(), nFile, |temp|);
      var slots := new DataFrame[|was|](i requires 0 <= i < |was| => was[i]);
      assert slots[..] == was;
      var sum := ReceiveDataFrames(slots, temp);
      var filled := slots[..];
      infos := infos[nFile := Info(Held(filled), |temp| - sum, |temp|)];
      if sum == 0 {
        var bytes := ProcessDryRun(filled, |temp|);
        streams := streams[nFile := bytes];
      }
    }
  }

  lemma {:induction false} PayloadsOfPrefix(frames: seq<DataFrame>, n: nat, k: nat)
    requires k <= n <= |frames|
    ensures Payloads(frames[..n], k) == Payloads(frames, k)
  {
    if k > 0 {
      PayloadsOfPrefix(frames, n, k - 1);
    }
  }

  /** `process_data_frames_dry_run`. */
  method ProcessDryRun(frames: seq<DataFrame>, n: nat) returns (bytes: seq<Byte>)
    requires n <= |frames| && LengthsOk(frames[..n])
    ensures bytes == Payloads(frames, n)
  {
    PayloadsOfPrefix(frames, n, n);
    var len := DataLength(frames[..n]);
    var addr := new Byte[len];
    FramesToData(frames[..n], addr);
    assert addr[..len] == addr[..];
    bytes := addr[..];
  }
}
