/** With the transmitter's line wired to the receiver, every accepted byte arrives. */
module UartLoopback {
  import opened Uart

  /** From the cycle that accepts a byte to the cycle that delivers it. */
  function Latency(cycles: nat): (d: nat)
  {
    9 * cycles + 4 + cycles / 2
  }

  // ---------------------------------------------------------------- where the machines are

  /** The bit period the transmitter is in: 0 start bit, 1 to 8 data bits, 9 stop bit. */
  function TxPeriod(t: Tx): (p: nat)
  {
    if t.state == START then 0 else if t.state == BYTE then t.bit + 1 else 9
  }

  /** Cycles since the byte on its way was accepted. */
  function TxAge(cycles: nat, t: Tx): (a: nat)
  {
    TxPeriod(t) * cycles + t.cycle + 1
  }

  function RxPeriod(r: Rx): (p: nat)
  {
    if r.state == START then 0 else r.bit + 1
  }

  /** The line lags the transmitter's state by one cycle. */
  ghost predicate TxOk(cycles: nat, t: Tx)
  {
    && t.state in {IDLE, START, BYTE, STOP}
    && (t.state == IDLE ==> t.line)
    && (t.state == START ==> t.cycle < cycles && t.line == (t.cycle == 0))
    && (t.state == BYTE ==>
          && t.cycle < cycles && t.bit < BITS
          && t.line == if t.cycle > 0 then t.latch[t.bit] else t.bit > 0 && t.latch[t.bit - 1])
    && (t.state == STOP ==> t.cycle < cycles && t.line == (t.cycle > 0 || t.latch[BITS - 1]))
    && (t.ready ==> t.state == IDLE)
  }

  /** The receiver is inside a start bit or the data bits. */
  predicate Busy(r: Rx)
  {
    r.state == START || r.state == BYTE
  }

  /** Cycles until a receiver past its data bits is idle again. */
  function Wind(cycles: nat, r: Rx): (n: int)
  {
    if r.state == STOP then cycles / 2 - r.cycle + 1 else if r.state == DATA then 1 else 0
  }

  /** Cycles at least until the next falling edge can be seen. */
  function Slack(cycles: nat, t: Tx): (n: int)
  {
    if t.state == IDLE then 3 else if t.state == START then 2 - t.cycle else cycles + 3 - t.cycle
  }

  /** Between frames: the receiver is idle again in time for the next edge, and sees none before. */
  ghost predicate Between(cycles: nat, t: Tx, r: Rx)
  {
    && r.state in {IDLE, STOP, DATA}
    && (r.state == STOP ==> r.cycle < cycles / 2)
    && t.state != BYTE && (t.state == START ==> t.cycle <= 2) && (t.state == STOP ==> t.cycle >= 3)
    && Wind(cycles, r) <= Slack(cycles, t)
    && (t.state != START ==> (r.d1 ==> r.d0))
    && (t.state == START && t.cycle == 0 ==> r.d0)
    && (t.state == START && t.cycle == 1 ==> r.d0 && r.d1)
    && (t.state == START && t.cycle == 2 ==> !r.d0 && r.d1)
    && (r.valid <==> r.state == DATA)
  }

  /** The bits sampled so far are the transmitter's. */
  ghost predicate Sampled(cycles: nat, t: Tx, r: Rx)
  {
    r.state == BYTE ==> forall i | 0 <= i < BITS && (i < r.bit || (i == r.bit && r.cycle >= cycles / 2)) :: r.data[i] == t.latch[i]
  }

  /** Within a frame: the receiver is exactly three cycles behind. */
  ghost predicate Within(cycles: nat, t: Tx, r: Rx)
  {
    && Busy(r) && t.state in {START, BYTE, STOP}
    && r.cycle < cycles && (r.state == BYTE ==> r.bit < BITS)
    && (t.cycle >= 3 ==> RxPeriod(r) == TxPeriod(t) && r.cycle == t.cycle - 3)
    && (t.cycle < 3 ==> RxPeriod(r) + 1 == TxPeriod(t) && r.cycle == cycles + t.cycle - 3)
    && Sampled(cycles, t, r)
    && !r.valid
  }

  /** The byte the receiver has complete but not delivered. */
  ghost function Held(cycles: nat, w: World): (e: seq<Event>)
    requires w.now >= 9 * cycles + 4 + w.rx.cycle || w.rx.state != STOP
    requires w.now >= Latency(cycles) || w.rx.state != DATA
  {
    if w.rx.state == STOP then [Event(w.now - (9 * cycles + 4 + w.rx.cycle), w.rx.data)]
    else if w.rx.state == DATA then [Event(w.now - Latency(cycles), w.rx.data)]
    else []
  }

  /** The byte the transmitter is sending and the receiver does not have complete. */
  ghost function Flying(cycles: nat, w: World): (e: seq<Event>)
    requires w.now >= TxAge(cycles, w.tx) || w.tx.state == IDLE || (w.tx.state == STOP && !Busy(w.rx))
  {
    if w.tx.state == IDLE || (w.tx.state == STOP && !Busy(w.rx)) then []
    else [Event(w.now - TxAge(cycles, w.tx), w.tx.latch)]
  }

  /** Every accepted byte is delivered, held or flying, in that order. */
  ghost predicate Accounted(cycles: nat, w: World)
  {
    && (w.now >= 9 * cycles + 4 + w.rx.cycle || w.rx.state != STOP)
    && (w.now >= Latency(cycles) || w.rx.state != DATA)
    && (w.now >= TxAge(cycles, w.tx) || w.tx.state == IDLE || (w.tx.state == STOP && !Busy(w.rx)))
    && |w.received| <= |w.accepted|
    && w.accepted[|w.received|..] == Held(cycles, w) + Flying(cycles, w)
  }

  /** Delivered bytes are the accepted ones, each exactly Latency cycles later. */
  ghost predicate Delivered(cycles: nat, w: World)
  {
    && |w.received| <= |w.accepted|
    && forall i | 0 <= i < |w.received| ::
         w.received[i] == Event(w.accepted[i].time + Latency(cycles), w.accepted[i].data) && w.received[i].time < w.now
  }

  ghost predicate Inv(cycles: nat, w: World)
  {
    && 3 <= cycles <= CYCLE_WRAP
    && TxOk(cycles, w.tx)
    && (Between(cycles, w.tx, w.rx) || Within(cycles, w.tx, w.rx))
    && Accounted(cycles, w)
    && Delivered(cycles, w)
  }

  // ---------------------------------------------------------------- one cycle

  lemma TxKeepsOk(cycles: nat, t: Tx, i: Input)
    requires 3 <= cycles <= CYCLE_WRAP && TxOk(cycles, t)
    ensures TxOk(cycles, TxStep(cycles, t, i))
  {
  }

  lemma AgeAdvances(cycles: nat, t: Tx, i: Input)
    requires 3 <= cycles <= CYCLE_WRAP && TxOk(cycles, t) && t.state != IDLE
    ensures var r := TxStep(cycles, t, i); r.state != IDLE ==> TxAge(cycles, r) == TxAge(cycles, t) + 1
  {
    var r := TxStep(cycles, t, i);
    if TxPeriod(r) == TxPeriod(t) + 1 {
      assert (TxPeriod(t) + 1) * cycles == TxPeriod(t) * cycles + cycles;
    }
  }

  /** What the receiver does while it cannot see a falling edge, or sees one. */
  lemma ReceiverBetween(cycles: nat, t: Tx, r: Rx)
    requires 3 <= cycles <= CYCLE_WRAP && TxOk(cycles, t) && Between(cycles, t, r)
    ensures var r' := RxStep(cycles, r, t.line, true);
            && r'.d0 == t.line && r'.d1 == r.d0 && (r'.valid <==> r'.state == DATA)
            && (if t.state == START && t.cycle == 2 then r'.state == START && r'.cycle == 0
                else && r'.state in {IDLE, STOP, DATA} && (r'.state == STOP ==> r'.cycle < cycles / 2)
                     && (Wind(cycles, r') == Wind(cycles, r) - 1 || Wind(cycles, r') == Wind(cycles, r) == 0))
  {
    hide TxOk;
  }

  /** Between frames, or into the next one. */
  lemma StepBetween(cycles: nat, t: Tx, r: Rx, i: Input)
    requires 3 <= cycles <= CYCLE_WRAP && TxOk(cycles, t) && Between(cycles, t, r)
    ensures var t', r' := TxStep(cycles, t, i), RxStep(cycles, r, t.line, true);
            if t.state == START && t.cycle == 2 then Within(cycles, t', r') && r'.state == START
            else Between(cycles, t', r')
  {
    ReceiverBetween(cycles, t, r);
    hide RxStep;
  }

  /** Mid-bit the line carries the bit being received. */
  lemma SampleIsRight(cycles: nat, t: Tx, r: Rx)
    requires 3 <= cycles && TxOk(cycles, t) && Within(cycles, t, r)
    requires r.state == BYTE && r.cycle == cycles / 2 - 1
    ensures t.line == t.latch[r.bit]
  {
  }

  lemma SamplesKept(cycles: nat, t: Tx, r: Rx, i: Input)
    requires 3 <= cycles <= CYCLE_WRAP && TxOk(cycles, t) && Within(cycles, t, r)
    ensures var t', r' := TxStep(cycles, t, i), RxStep(cycles, r, t.line, true);
            Sampled(cycles, t', r') && (r'.state == STOP ==> r'.data == t.latch)
  {
    var t', r' := TxStep(cycles, t, i), RxStep(cycles, r, t.line, true);
    assert t'.latch == t.latch;
    if r.state == BYTE && r.cycle == cycles / 2 - 1 {
      SampleIsRight(cycles, t, r);
      assert r'.data[r.bit] == t.latch[r.bit];
    }
    hide TxStep, TxOk, TxPeriod, RxPeriod;
  }

  /** Within a frame, or out of it. */
  lemma {:induction false} StepWithin(cycles: nat, t: Tx, r: Rx, i: Input)
    requires 3 <= cycles <= CYCLE_WRAP && TxOk(cycles, t) && Within(cycles, t, r)
    ensures var t', r' := TxStep(cycles, t, i), RxStep(cycles, r, t.line, true);
            if t.state == STOP && t.cycle == 2 then Between(cycles, t', r') && r'.state == STOP && r'.data == t.latch
            else Within(cycles, t', r')
  {
    SamplesKept(cycles, t, r, i);
    hide Sampled;
  }

  /** What a cycle does to the bytes under way: the first may leave, a new one may enter. */
  ghost function Entering(w: World, i: Input): (e: seq<Event>)
  {
    if w.tx.state == IDLE && i.valid then [Event(w.now, i.data)] else []
  }

  lemma FlyingBetween(cycles: nat, w: World, i: Input)
    requires Inv(cycles, w) && Between(cycles, w.tx, w.rx)
    ensures var w' := Tick(cycles, w, i);
            && (w'.now >= TxAge(cycles, w'.tx) || w'.tx.state == IDLE || (w'.tx.state == STOP && !Busy(w'.rx)))
            && Flying(cycles, w') == Flying(cycles, w) + Entering(w, i)
  {
    StepBetween(cycles, w.tx, w.rx, i);
    if w.tx.state != IDLE {
      AgeAdvances(cycles, w.tx, i);
    }
  }

  lemma HeldBetween(cycles: nat, w: World, i: Input)
    requires Inv(cycles, w) && Between(cycles, w.tx, w.rx)
    ensures var w' := Tick(cycles, w, i);
            && (w'.now >= 9 * cycles + 4 + w'.rx.cycle || w'.rx.state != STOP)
            && (w'.now >= Latency(cycles) || w'.rx.state != DATA)
            && Held(cycles, w') == if w.rx.valid then [] else Held(cycles, w)
  {
  }

  lemma AccountedWithin(cycles: nat, w: World, i: Input)
    requires Inv(cycles, w) && Within(cycles, w.tx, w.rx)
    ensures Accounted(cycles, Tick(cycles, w, i))
  {
    hide Sampled, Delivered;
    StepWithin(cycles, w.tx, w.rx, i);
    TxKeepsOk(cycles, w.tx, i);
    AgeAdvances(cycles, w.tx, i);
  }

  lemma AccountedBetween(cycles: nat, w: World, i: Input)
    requires Inv(cycles, w) && Between(cycles, w.tx, w.rx)
    ensures Accounted(cycles, Tick(cycles, w, i))
  {
    FlyingBetween(cycles, w, i);
    HeldBetween(cycles, w, i);
    var w' := Tick(cycles, w, i);
    var k := |w.received|;
    hide Flying, Between, TxOk, TxStep, RxStep;
    if w.rx.valid {
      assert w'.accepted[k + 1..] == w.accepted[k..][1..] + Entering(w, i);
    } else {
      assert w'.accepted[k..] == w.accepted[k..] + Entering(w, i);
    }
  }

  lemma DeliveredKept(cycles: nat, w: World, i: Input)
    requires Inv(cycles, w)
    ensures Delivered(cycles, Tick(cycles, w, i))
  {
    var w' := Tick(cycles, w, i);
    var k := |w.received|;
    if w.rx.valid {
      assert w.accepted[k..][0] == w.accepted[k];
    }
    hide TxOk, TxStep, RxStep, TxAge;
  }

  lemma TickKeepsInv(cycles: nat, w: World, i: Input)
    requires Inv(cycles, w)
    ensures Inv(cycles, Tick(cycles, w, i))
  {
    TxKeepsOk(cycles, w.tx, i);
    DeliveredKept(cycles, w, i);
    if Between(cycles, w.tx, w.rx) {
      StepBetween(cycles, w.tx, w.rx, i);
      AccountedBetween(cycles, w, i);
    } else {
      StepWithin(cycles, w.tx, w.rx, i);
      AccountedWithin(cycles, w, i);
    }
    hide TxOk, TxStep, RxStep, Accounted, Delivered, Between, Within;
  }

  // ---------------------------------------------------------------- whole runs

  lemma {:induction false} RunKeepsInv(cycles: nat, inputs: seq<Input>)
    requires 3 <= cycles <= CYCLE_WRAP
    ensures Inv(cycles, Run(cycles, inputs))
  {
    if inputs != [] {
      RunKeepsInv(cycles, inputs[..|inputs| - 1]);
      TickKeepsInv(cycles, Run(cycles, inputs[..|inputs| - 1]), inputs[|inputs| - 1]);
    }
  }

  /** Bytes under way are younger than the latency. */
  lemma UnderWayIsYoung(cycles: nat, w: World)
    requires Inv(cycles, w)
    ensures forall i | |w.received| <= i < |w.accepted| :: w.accepted[i].time + Latency(cycles) >= w.now
  {
    var p := Held(cycles, w) + Flying(cycles, w);
    if !(w.tx.state == IDLE || (w.tx.state == STOP && !Busy(w.rx))) {
      AgeBounded(cycles, w.tx, w.rx);
    }
    forall i | |w.received| <= i < |w.accepted| ensures w.accepted[i].time + Latency(cycles) >= w.now {
      assert w.accepted[i] == p[i - |w.received|];
    }
  }

  lemma AgeBounded(cycles: nat, t: Tx, r: Rx)
    requires TxOk(cycles, t) && (Between(cycles, t, r) || Within(cycles, t, r)) && t.state != IDLE
    requires t.state == STOP ==> Busy(r)
    ensures TxAge(cycles, t) <= 9 * cycles + 3
  {
    if t.state == BYTE {
      assert (t.bit + 1) * cycles <= 8 * cycles;
    }
  }

  /** Delivered is exactly what was accepted at least Latency cycles ago, each byte on time. */
  ghost predicate OnTime(cycles: nat, w: World)
  {
    && |w.received| <= |w.accepted|
    && (forall i | 0 <= i < |w.received| ::
          w.received[i] == Event(w.accepted[i].time + Latency(cycles), w.accepted[i].data))
    && (forall i | 0 <= i < |w.accepted| :: (i < |w.received| <==> w.accepted[i].time + Latency(cycles) < w.now))
  }

  /**
   Loopback: for every bit period from 3 to 65536 cycles and every input, back-to-back bytes
   included, each accepted byte is delivered exactly once, unaltered and in order, exactly
   Latency cycles after it was accepted; nothing else is ever delivered.
   */
  lemma LoopbackDelivers(cycles: nat, inputs: seq<Input>)
    requires 3 <= cycles <= CYCLE_WRAP
    ensures OnTime(cycles, Run(cycles, inputs))
    ensures var w := Run(cycles, inputs);
            forall i | 0 <= i < |w.received| :: w.received[i].time == w.accepted[i].time + 9 * cycles + 4 + cycles / 2
  {
    RunKeepsInv(cycles, inputs);
    UnderWayIsYoung(cycles, Run(cycles, inputs));
    assert Latency(cycles) == 9 * cycles + 4 + cycles / 2;
    hide TxOk, Accounted, Between, Within, Latency;
    var w := Run(cycles, inputs);
    forall i | 0 <= i < |w.received| ensures w.accepted[i].time + Latency(cycles) < w.now {
      assert w.received[i].time < w.now;
    }
  }

  lemma {:induction false} ClockCounts(cycles: nat, inputs: seq<Input>)
    ensures Run(cycles, inputs).now == |inputs|
  {
    if inputs != [] {
      ClockCounts(cycles, inputs[..|inputs| - 1]);
    }
  }

  /** A client that waits for `ready` never loses a byte. */
  lemma ReadyMeansAccepted(cycles: nat, inputs: seq<Input>, i: Input)
    requires 3 <= cycles <= CYCLE_WRAP && Run(cycles, inputs).tx.ready && i.valid
    ensures Run(cycles, inputs + [i]).accepted == Run(cycles, inputs).accepted + [Event(|inputs|, i.data)]
  {
    RunKeepsInv(cycles, inputs);
    ClockCounts(cycles, inputs);
    assert (inputs + [i])[..|inputs|] == inputs;
  }
}
