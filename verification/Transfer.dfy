/** Whole runs of the transfer: what the slave reports and holds after any sequence of requests. */
module Transfer {
  import opened Words
  import opened Memory
  import opened Frames
  import opened DataFrames
  import opened Framing
  import opened Slave
  import Crc

  // ---------------------------------------------------------------- the master and the channel

  /** A frame as the master prepares it. */
  ghost predicate Prepared(m: DataFrame)
  {
    Fits(m) && m.header == HEADER && 0 < m.dataLen <= DATA_MAX
  }

  /** The frames of every picture the slave has room for. */
  ghost predicate Album(album: seq<seq<DataFrame>>)
  {
    && |album| == PICTURES
    && forall f | 0 <= f < PICTURES :: PreparedAll(album[f])
  }

  ghost predicate PreparedAll(ms: seq<DataFrame>)
  {
    |ms| < 0x1_0000 && forall i | 0 <= i < |ms| :: Prepared(ms[i])
  }

  /** The frame with the running number it gets when it is sent. */
  function Numbered(m: DataFrame, c: nat): (r: DataFrame)
    ensures r.nTotal == c && r.(nTotal := m.nTotal) == m
  {
    m.(nTotal := c)
  }

  /** The bytes are the frame as sent, under some running number. */
  ghost predicate Arrives(m: DataFrame, b: seq<Byte>)
    requires Prepared(m)
  {
    exists c: nat :: c < Range(3) && b == Send(Numbered(m, c))
  }

  /** The channel damages bytes in place, and no damage gets past the receiver's checks. */
  ghost predicate Delivered(ms: seq<DataFrame>, temp: seq<seq<Byte>>)
    requires PreparedAll(ms)
  {
    && |temp| == |ms| && Sized(temp)
    && forall i | 0 <= i < |temp| :: Intact(temp[i]) ==> Arrives(ms[i], temp[i])
  }

  /** Damage within 16 consecutive bits, or to an odd number of bits, is of that kind. */
  lemma DetectableIsDelivered(m: DataFrame, c: nat, b: seq<Byte>)
    requires Prepared(m) && c < Range(3) && |b| == SIZE && Crc.Detectable(b, Send(Numbered(m, c)))
    ensures Intact(b) ==> Arrives(m, b)
    ensures Intact(b) <==> b == Send(Numbered(m, c))
  {
    hide Send, Intact, Crc.Detectable;
    DataFrameRoundTrip(Numbered(m, c));
    if b != Send(Numbered(m, c)) {
      DamageIsNoticed(Numbered(m, c), b);
    }
  }

  /** The same frame, whatever its running number and check sum. */
  ghost predicate Same(f: DataFrame, m: DataFrame)
  {
    f.(nTotal := m.nTotal, checkSum := m.checkSum) == m
  }

  lemma ArrivedIsSame(m: DataFrame, b: seq<Byte>)
    requires Prepared(m) && Arrives(m, b)
    ensures |b| == SIZE && Intact(b) && Same(Decode(b), m) && Full(Decode(b))
  {
    var c: nat :| c < Range(3) && b == Send(Numbered(m, c));
    hide Send, Intact, Decode, Range;
    DataFrameRoundTrip(Numbered(m, c));
  }

  // ---------------------------------------------------------------- events and what has arrived

  datatype Event = Asked(f: nat) | Sent(f: nat, temp: seq<seq<Byte>>)

  ghost predicate Legal(album: seq<seq<DataFrame>>, e: Event)
    requires Album(album)
  {
    e.Sent? ==> Sized(e.temp) && (e.f < PICTURES ==> Delivered(album[e.f], e.temp))
  }

  ghost predicate AllLegal(album: seq<seq<DataFrame>>, events: seq<Event>)
  {
    Album(album) && forall k | 0 <= k < |events| :: Legal(album, events[k])
  }

  /** The event brings frame i of picture f intact. */
  ghost predicate Brings(e: Event, f: nat, i: nat)
  {
    e.Sent? && e.f == f && i < |e.temp| && |e.temp[i]| == SIZE && Intact(e.temp[i])
  }

  /** All positions of a picture's frames. */
  ghost function Positions(size: nat): (r: set<nat>)
    ensures |r| == size && forall i :: i in r <==> 0 <= i < size
  {
    if size == 0 then {} else Positions(size - 1) + {size - 1}
  }

  /** The positions whose frames passed the checks. */
  ghost function News(temp: seq<seq<Byte>>): (r: set<nat>)
    requires Sized(temp)
    ensures forall i :: i in r <==> 0 <= i < |temp| && Intact(temp[i])
  {
    set i | i in Positions(|temp|) && Intact(temp[i])
  }

  /** The frames of picture f that the first n events have brought. */
  ghost function Got(album: seq<seq<DataFrame>>, events: seq<Event>, n: nat, f: nat): (r: set<nat>)
    requires AllLegal(album, events) && n <= |events|
  {
    if n == 0 then {}
    else if events[n - 1].Sent? && events[n - 1].f == f then Got(album, events, n - 1, f) + News(events[n - 1].temp)
    else Got(album, events, n - 1, f)
  }

  /** Some event among the first n brings the frame. */
  ghost predicate Arrived(events: seq<Event>, n: nat, f: nat, i: nat)
    requires n <= |events|
  {
    exists k | 0 <= k < n :: Brings(events[k], f, i)
  }

  lemma BringsNews(album: seq<seq<DataFrame>>, e: Event, f: nat, i: nat)
    requires Album(album) && Legal(album, e)
    ensures Brings(e, f, i) <==> e.Sent? && e.f == f && i in News(e.temp)
  {
    hide Intact, Album, Delivered;
  }

  lemma ArrivedStep(events: seq<Event>, n: nat, f: nat, i: nat)
    requires 0 < n <= |events|
    ensures Arrived(events, n, f, i) <==> Arrived(events, n - 1, f, i) || Brings(events[n - 1], f, i)
  {
    hide Brings;
  }

  lemma {:induction false} GotMeans(album: seq<seq<DataFrame>>, events: seq<Event>, n: nat, f: nat, i: nat)
    requires AllLegal(album, events) && n <= |events|
    ensures i in Got(album, events, n, f) <==> Arrived(events, n, f, i)
  {
    if n > 0 {
      GotMeans(album, events, n - 1, f, i);
      BringsNews(album, events[n - 1], f, i);
      ArrivedStep(events, n, f, i);
      hide Legal, Album, Delivered, Brings, News, Arrived;
    }
  }

  // ---------------------------------------------------------------- the invariant of one picture

  ghost predicate Copies(slots: seq<DataFrame>, ms: seq<DataFrame>)
  {
    |slots| == |ms| && forall i | 0 <= i < |ms| :: Full(slots[i]) ==> Same(slots[i], ms[i])
  }

  ghost predicate FullAre(slots: seq<DataFrame>, got: set<nat>)
  {
    forall i | 0 <= i < |slots| :: Full(slots[i]) <==> i in got
  }

  ghost predicate Picture(ms: seq<DataFrame>, stream: seq<Byte>, info: Info, got: set<nat>)
  {
    && got <= Positions(|ms|)
    && match info.slots {
         case Free => stream == [] && got == {} && info.len == info.totalLen == 0
         case Held(slots) =>
           && |slots| == |ms| == info.totalLen
           && if stream != []
              then ms != [] && stream == Payloads(ms, |ms|) && got == Positions(|ms|)
              else && Copies(slots, ms) && FullAre(slots, got)
                   && info.len == |ms| - Missing(slots, |ms|)
                   && (ms != [] ==> Missing(slots, |ms|) > 0)
       }
  }

  lemma {:induction false} NothingMissing(slots: seq<DataFrame>, n: nat)
    requires n <= |slots|
    ensures Missing(slots, n) == 0 <==> forall i | 0 <= i < n :: Full(slots[i])
  {
    if n > 0 {
      NothingMissing(slots, n - 1);
    }
  }

  lemma {:induction false} SamePayloads(slots: seq<DataFrame>, ms: seq<DataFrame>, n: nat)
    requires Copies(slots, ms) && n <= |ms| && forall i | 0 <= i < |ms| :: Full(slots[i])
    ensures Payloads(slots, n) == Payloads(ms, n)
  {
    if n > 0 {
      SamePayloads(slots, ms, n - 1);
    }
  }

  lemma PayloadsNotEmpty(ms: seq<DataFrame>)
    requires PreparedAll(ms) && ms != []
    ensures Payloads(ms, |ms|) != []
  {
    assert Payload(ms[|ms| - 1]) != [];
  }

  /** One round: the slots keep copies of the master's frames, and the count returned is exact. */
  lemma RoundKeepsCopies(slots: seq<DataFrame>, ms: seq<DataFrame>, temp: seq<seq<Byte>>, got: set<nat>)
    requires PreparedAll(ms) && Delivered(ms, temp) && Copies(slots, ms) && FullAre(slots, got)
    ensures Copies(Fill(slots, temp), ms)
    ensures FullAre(Fill(slots, temp), got + News(temp))
    ensures Rejected(slots, temp, |ms|) == Missing(Fill(slots, temp), |ms|)
  {
    forall i | 0 <= i < |ms| && Intact(temp[i])
      ensures Same(Decode(temp[i]), ms[i]) && Full(Decode(temp[i]))
    {
      ArrivedIsSame(ms[i], temp[i]);
    }
    hide Intact, Decode, Arrives, Same, Prepared, Full;
    CountIsExact(slots, temp, |ms|);
  }

  lemma FreshSlots(ms: seq<DataFrame>)
    ensures Copies(seq(|ms|, _ => EmptyFrame()), ms) && FullAre(seq(|ms|, _ => EmptyFrame()), {})
  {
  }

  /** What the slots hold when a round starts. */
  ghost function Before(stream: seq<Byte>, got: set<nat>): (r: set<nat>)
  {
    if stream == [] then got else {}
  }

  lemma StartOfRound(s: State, f: nat, ms: seq<DataFrame>, got: set<nat>)
    requires StateOk(s) && f < PICTURES && Picture(ms, s.streams[f], s.infos[f], got)
    ensures var slots := SlotsFor(s, f, |ms|);
            Copies(slots, ms) && FullAre(slots, Before(s.streams[f], got))
  {
    FreshSlots(ms);
    hide Copies, FullAre, Positions, Missing, Payloads, EmptyFrame;
  }

  /** What a send request changes. */
  lemma AfterSend(s: State, f: nat, temp: seq<seq<Byte>>)
    requires StateOk(s) && f < PICTURES && Sized(temp) && |temp| == |SlotsFor(s, f, |temp|)|
    ensures var slots, t := SlotsFor(s, f, |temp|), OnSend(s, f, temp);
            var sum := Rejected(slots, temp, |temp|);
            && t.infos[f] == Info(Held(Fill(slots, temp)), |temp| - sum, |temp|)
            && t.streams[f] == if sum == 0 then Payloads(Fill(slots, temp), |temp|) else s.streams[f]
    ensures forall g | 0 <= g < PICTURES && g != f ::
              OnSend(s, f, temp).infos[g] == s.infos[g] && OnSend(s, f, temp).streams[g] == s.streams[g]
  {
    hide SlotsFor, Fill, Payloads, Rejected;
  }

  /** A picture after a round, from what the round left in the slots. */
  lemma PictureAfter(ms: seq<DataFrame>, was: seq<Byte>, stream: seq<Byte>, filled: seq<DataFrame>,
                                        sum: nat, some: set<nat>, before: set<nat>, got: set<nat>)
    requires PreparedAll(ms) && Copies(filled, ms) && FullAre(filled, some) && sum == Missing(filled, |ms|)
    requires some <= got <= Positions(|ms|) && (was == [] ==> some == got) && before <= got
    requires was != [] ==> ms != [] && was == Payloads(ms, |ms|) && before == Positions(|ms|)
    requires stream == if sum == 0 then Payloads(filled, |ms|) else was
    ensures Picture(ms, stream, Info(Held(filled), |ms| - sum, |ms|), got)
  {
    NothingMissing(filled, |ms|);
    if sum == 0 {
      SamePayloads(filled, ms, |ms|);
      AllGot(filled, ms, some, got);
      if ms != [] {
        PayloadsNotEmpty(ms);
      }
    }
    hide Positions, PreparedAll, Full, Copies, FullAre, Missing;
  }

  /** A send request keeps the invariant of its picture. */
  lemma SendKeepsPicture(s: State, f: nat, ms: seq<DataFrame>, temp: seq<seq<Byte>>, got: set<nat>)
    requires StateOk(s) && f < PICTURES && PreparedAll(ms) && Delivered(ms, temp)
    requires Picture(ms, s.streams[f], s.infos[f], got)
    ensures |temp| == |SlotsFor(s, f, |temp|)|
    ensures var t := OnSend(s, f, temp); Picture(ms, t.streams[f], t.infos[f], got + News(temp))
  {
    var slots, some := SlotsFor(s, f, |ms|), Before(s.streams[f], got);
    StartOfRound(s, f, ms, got);
    assert |slots| == |ms|;
    RoundKeepsCopies(slots, ms, temp, some);
    AfterSend(s, f, temp);
    hide OnSend, Intact, SlotsFor, Fill, Rejected, Copies, FullAre, Missing, PreparedAll, Payloads;
    var t := OnSend(s, f, temp);
    PictureAfter(ms, s.streams[f], t.streams[f], Fill(slots, temp), Rejected(slots, temp, |ms|), some + News(temp), got, got + News(temp));
  }

  lemma AllGot(slots: seq<DataFrame>, ms: seq<DataFrame>, some: set<nat>, got: set<nat>)
    requires |slots| == |ms| && FullAre(slots, some) && some <= got <= Positions(|ms|)
    requires forall i | 0 <= i < |ms| :: Full(slots[i])
    ensures got == Positions(|ms|)
  {
    forall i | i in Positions(|ms|) ensures i in got {
      assert Full(slots[i]);
    }
  }

  // ---------------------------------------------------------------- runs

  ghost predicate Consistent(album: seq<seq<DataFrame>>, events: seq<Event>, n: nat, s: State)
    requires AllLegal(album, events) && n <= |events|
  {
    && StateOk(s)
    && forall f | 0 <= f < PICTURES :: Picture(album[f], s.streams[f], s.infos[f], Got(album, events, n, f))
  }

  lemma InitialConsistent(album: seq<seq<DataFrame>>, events: seq<Event>)
    requires AllLegal(album, events)
    ensures Consistent(album, events, 0, Initial())
  {
    hide Album;
  }

  /** Every legal event finds room for its frames and keeps every picture consistent. */
  lemma EventKeepsConsistent(album: seq<seq<DataFrame>>, events: seq<Event>, n: nat, s: State)
    requires AllLegal(album, events) && n < |events| && Consistent(album, events, n, s)
    ensures var e := events[n];
            if e.Sent? && e.f < PICTURES
            then |e.temp| == |SlotsFor(s, e.f, |e.temp|)| && Consistent(album, events, n + 1, OnSend(s, e.f, e.temp))
            else Consistent(album, events, n + 1, s)
  {
    var e := events[n];
    assert Legal(album, e);
    hide Picture, Intact, Delivered, SlotsFor, News;
    if e.Sent? && e.f < PICTURES {
      SendKeepsPicture(s, e.f, album[e.f], e.temp, Got(album, events, n, e.f));
      AfterSend(s, e.f, e.temp);
      hide OnSend;
    }
  }

  /** The slave after the first n events. */
  function Run(album: seq<seq<DataFrame>>, events: seq<Event>, n: nat): (s: State)
    requires AllLegal(album, events) && n <= |events|
    ensures StateOk(s) && Consistent(album, events, n, s)
  {
    if n == 0 then
      InitialConsistent(album, events);
      Initial()
    else
      var s := Run(album, events, n - 1);
      EventKeepsConsistent(album, events, n - 1, s);
      if events[n - 1].Sent? then OnSend(s, events[n - 1].f, events[n - 1].temp) else s
  }

  lemma PictureStatus(ms: seq<DataFrame>, stream: seq<Byte>, info: Info, got: set<nat>)
    requires PreparedAll(ms) && Picture(ms, stream, info, got)
    ensures stream != [] <==> ms != [] && got == Positions(|ms|)
    ensures stream != [] ==> stream == Payloads(ms, |ms|)
    ensures stream == [] ==> info.len != info.totalLen || info.totalLen == 0
  {
    if info.slots.Held? {
      NothingMissing(info.slots.frames, |ms|);
    } else if ms != [] {
      assert 0 in Positions(|ms|);
    }
  }

  /**
   The slave reports a picture as processed exactly when every one of its frames has come
   through in some round, and it then holds the master's payloads in order. It never reports
   a picture as still in process.
   */
  lemma ProcessedExactly(album: seq<seq<DataFrame>>, events: seq<Event>, n: nat, f: nat)
    requires AllLegal(album, events) && n <= |events| && f < PICTURES
    ensures var s, ms := Run(album, events, n), album[f];
            && (GetStatus(s, f) == PROCESSED <==> ms != [] && forall i | 0 <= i < |ms| :: Arrived(events, n, f, i))
            && (GetStatus(s, f) == PROCESSED ==> s.streams[f] == Payloads(ms, |ms|))
            && (GetStatus(s, f) != PROCESSED ==> GetStatus(s, f) == UNRECEIVED)
  {
    var s := Run(album, events, n);
    RunHasPicture(album, events, n, f);
    PictureStatus(album[f], s.streams[f], s.infos[f], Got(album, events, n, f));
    GotAll(album, events, n, f);
    hide Run, Got, Arrived, AllLegal, Positions, Picture, Payloads;
  }

  lemma RunHasPicture(album: seq<seq<DataFrame>>, events: seq<Event>, n: nat, f: nat)
    requires AllLegal(album, events) && n <= |events| && f < PICTURES
    ensures PreparedAll(album[f])
    ensures var s := Run(album, events, n);
            Picture(album[f], s.streams[f], s.infos[f], Got(album, events, n, f))
  {
  }

  lemma GotAll(album: seq<seq<DataFrame>>, events: seq<Event>, n: nat, f: nat)
    requires AllLegal(album, events) && n <= |events| && f < PICTURES
    ensures Got(album, events, n, f) == Positions(|album[f]|) <==> forall i | 0 <= i < |album[f]| :: Arrived(events, n, f, i)
  {
    var got, size := Got(album, events, n, f), |album[f]|;
    RunHasPicture(album, events, n, f);
    assert got <= Positions(size);
    hide Run, Got, Arrived, Picture;
    forall i | 0 <= i < size ensures i in got <==> Arrived(events, n, f, i) {
      GotMeans(album, events, n, f, i);
    }
    hide AllLegal;
    SetIsAll(got, size);
  }

  lemma SetIsAll(got: set<nat>, size: nat)
    requires got <= Positions(size)
    ensures got == Positions(size) <==> forall i | 0 <= i < size :: i in got
  {
  }

  /** A picture once processed stays processed, with the same stream, whatever is sent later. */
  lemma ProcessedStays(album: seq<seq<DataFrame>>, events: seq<Event>, m: nat, n: nat, f: nat)
    requires AllLegal(album, events) && m <= n <= |events| && f < PICTURES
    requires GetStatus(Run(album, events, m), f) == PROCESSED
    ensures GetStatus(Run(album, events, n), f) == PROCESSED
    ensures Run(album, events, n).streams[f] == Run(album, events, m).streams[f]
  {
    ProcessedExactly(album, events, m, f);
    ProcessedExactly(album, events, n, f);
    hide Run, GetStatus, Brings, AllLegal;
    assert forall i :: Arrived(events, m, f, i) ==> Arrived(events, n, f, i);
  }

  /** Frames cut from a byte string: a processed picture is that byte string. */
  lemma TransferIsFaithful(album: seq<seq<DataFrame>>, events: seq<Event>, n: nat, f: nat, bytes: seq<Byte>)
    requires AllLegal(album, events) && n <= |events| && f < PICTURES
    requires |album[f]| == FrameCount(|bytes|) && forall i | 0 <= i < |album[f]| :: Holds(album[f][i], bytes, i)
    ensures GetStatus(Run(album, events, n), f) == PROCESSED ==> Run(album, events, n).streams[f] == bytes
  {
    var ms := album[f];
    ProcessedExactly(album, events, n, f);
    hide Holds, AllLegal, Payloads, GetStatus, Run, Arrived;
    FramingRoundTrip(ms, bytes, |ms|);
  }

  /** Frames read from a file: a processed picture is that file exactly when the misplaced clearing does no harm. */
  lemma FileTransferFaithful(album: seq<seq<DataFrame>>, events: seq<Event>, n: nat, f: nat,
                                                was: seq<DataFrame>, file: seq<Byte>)
    requires AllLegal(album, events) && n <= |events| && f < PICTURES
    requires |file| > 0 && FromFile(album[f], was, file)
    requires GetStatus(Run(album, events, n), f) == PROCESSED
    ensures Run(album, events, n).streams[f] == file <==> Harmless(file)
  {
    var ms := album[f];
    ProcessedExactly(album, events, n, f);
    hide FromFile, AllLegal, Payloads, GetStatus, Run, Arrived, Harmless;
    FileFramingFaithful(ms, was, file);
  }

  // ---------------------------------------------------------------- how long it takes

  lemma {:induction false} MissingIsRest(slots: seq<DataFrame>, got: set<nat>, n: nat)
    requires n <= |slots| && FullAre(slots, got)
    ensures Missing(slots, n) == n - |got * Positions(n)|
  {
    hide Positions, Full;
    if n > 0 {
      MissingIsRest(slots, got, n - 1);
      MeetGrows(got, n);
    } else {
      assert got * Positions(0) == {};
    }
  }

  lemma MeetGrows(got: set<nat>, n: nat)
    requires n > 0
    ensures |got * Positions(n)| == |got * Positions(n - 1)| + (if n - 1 in got then 1 else 0)
  {
    if n - 1 in got {
      assert got * Positions(n) == got * Positions(n - 1) + {n - 1};
    } else {
      assert got * Positions(n) == got * Positions(n - 1);
    }
  }

  /** Until the picture is processed, the number in the query's reply counts the frames received. */
  lemma ReplyCounts(album: seq<seq<DataFrame>>, events: seq<Event>, n: nat, f: nat)
    requires AllLegal(album, events) && n <= |events| && f < PICTURES
    requires GetStatus(Run(album, events, n), f) == UNRECEIVED
    ensures Run(album, events, n).infos[f].len == |Got(album, events, n, f)| <= |album[f]|
  {
    var s, ms, got := Run(album, events, n), album[f], Got(album, events, n, f);
    assert Picture(ms, s.streams[f], s.infos[f], got);
    hide Run, Got, AllLegal, Payloads, Missing;
    if s.infos[f].slots.Held? {
      MissingIsRest(s.infos[f].slots.frames, got, |ms|);
      assert got * Positions(|ms|) == got;
    }
  }

  /** Event k sends picture f, and while frames are missing it brings one of those. */
  ghost predicate Helps(album: seq<seq<DataFrame>>, events: seq<Event>, k: nat, f: nat)
    requires AllLegal(album, events) && k < |events| && f < PICTURES
  {
    && events[k].Sent? && events[k].f == f
    && (Got(album, events, k, f) != Positions(|album[f]|) ==> exists i :: i in News(events[k].temp) && i !in Got(album, events, k, f))
  }

  lemma GotWithin(album: seq<seq<DataFrame>>, events: seq<Event>, n: nat, f: nat)
    requires AllLegal(album, events) && n <= |events| && f < PICTURES
    ensures Got(album, events, n, f) <= Positions(|album[f]|) && |Got(album, events, n, f)| <= |album[f]|
  {
    var s := Run(album, events, n);
    assert Picture(album[f], s.streams[f], s.infos[f], Got(album, events, n, f));
    hide Run, Got, AllLegal;
    SubsetSize(Got(album, events, n, f), Positions(|album[f]|));
  }

  lemma SubsetSize(a: set<nat>, b: set<nat>)
    requires a <= b
    ensures |a| <= |b| && (a != b ==> |a| < |b|)
  {
    assert b == a + (b - a);
  }

  lemma HelpGrows(album: seq<seq<DataFrame>>, events: seq<Event>, k: nat, f: nat)
    requires AllLegal(album, events) && k < |events| && f < PICTURES && Helps(album, events, k, f)
    ensures Got(album, events, k + 1, f) == Positions(|album[f]|)
         || (Got(album, events, k, f) != Positions(|album[f]|) && |Got(album, events, k + 1, f)| > |Got(album, events, k, f)|)
  {
    GotWithin(album, events, k + 1, f);
    assert Legal(album, events[k]);
    var was, now, news := Got(album, events, k, f), Got(album, events, k + 1, f), News(events[k].temp);
    assert now == was + news;
    hide Got, News, AllLegal, Positions, Legal;
    SubsetSize(was, now);
  }

  /** Helpful rounds bring at least one frame each until all are there. */
  lemma {:induction false} GotAtLeast(album: seq<seq<DataFrame>>, events: seq<Event>, m: nat, n: nat, f: nat)
    requires AllLegal(album, events) && m <= n <= |events| && f < PICTURES
    requires forall k | m <= k < n :: Helps(album, events, k, f)
    ensures Got(album, events, n, f) == Positions(|album[f]|) || |Got(album, events, n, f)| >= |Got(album, events, m, f)| + n - m
    decreases n - m
  {
    hide Got, Helps, Positions, AllLegal;
    if m < n {
      GotAtLeast(album, events, m, n - 1, f);
      HelpGrows(album, events, n - 1, f);
    }
  }

  /** Helpful rounds, as many as frames were missing, complete the picture. */
  lemma RepairCompletes(album: seq<seq<DataFrame>>, events: seq<Event>, m: nat, n: nat, f: nat)
    requires AllLegal(album, events) && m <= n <= |events| && f < PICTURES && album[f] != []
    requires forall k | m <= k < n :: Helps(album, events, k, f)
    requires n - m >= |album[f]| - |Got(album, events, m, f)|
    ensures GetStatus(Run(album, events, n), f) == PROCESSED
  {
    var s, ms, got := Run(album, events, n), album[f], Got(album, events, n, f);
    GotAtLeast(album, events, m, n, f);
    GotWithin(album, events, n, f);
    assert Picture(ms, s.streams[f], s.infos[f], got);
    SubsetSize(got, Positions(|ms|));
    PictureStatus(ms, s.streams[f], s.infos[f], got);
    hide Run, Got, AllLegal;
  }
}
