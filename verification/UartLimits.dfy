/** The bit periods for which the loopback works are exactly those from 3 to 65536 cycles. */
module UartLimits {
  import opened Uart
  import opened UartLoopback

  function Zero(): (b: Octet)
  {
    [false, false, false, false, false, false, false, false]
  }

  /** A zero byte offered in the first cycle, then silence for n cycles. */
  function OneByte(n: nat): (r: seq<Input>)
    ensures |r| == n + 1
  {
    if n == 0 then [Input(true, Zero())] else OneByte(n - 1) + [Input(false, Zero())]
  }

  lemma OneByteRuns(cycles: nat, n: nat)
    ensures n > 0 ==> Run(cycles, OneByte(n)) == Tick(cycles, Run(cycles, OneByte(n - 1)), Input(false, Zero()))
    ensures n == 0 ==> Run(cycles, OneByte(n)) == Tick(cycles, Reset(), Input(true, Zero()))
  {
    var r := OneByte(n);
    if n > 0 {
      assert r[..|r| - 1] == OneByte(n - 1);
    } else {
      assert r[..0] == [];
    }
  }

  /** Counters that never reach a bit period, or a half period below one cycle: nothing arrives. */
  ghost predicate Stuck(cycles: nat, w: World)
  {
    && w.received == [] && !w.rx.valid
    && w.rx.cycle < CYCLE_WRAP && w.rx.state != DATA
    && (cycles > CYCLE_WRAP ==> w.rx.state == IDLE || w.rx.state == START)
  }

  lemma StaysStuck(cycles: nat, w: World, i: Input)
    requires (cycles <= 1 || cycles > CYCLE_WRAP) && Stuck(cycles, w)
    ensures Stuck(cycles, Tick(cycles, w, i))
  {
    hide TxStep;
  }

  lemma {:induction false} RunStaysStuck(cycles: nat, inputs: seq<Input>)
    requires cycles <= 1 || cycles > CYCLE_WRAP
    ensures Stuck(cycles, Run(cycles, inputs))
  {
    if inputs != [] {
      RunStaysStuck(cycles, inputs[..|inputs| - 1]);
      StaysStuck(cycles, Run(cycles, inputs[..|inputs| - 1]), inputs[|inputs| - 1]);
    }
  }

  /** Outside 2 to 65536 cycles per bit no input ever makes the receiver deliver anything. */
  lemma NothingArrives(cycles: nat, inputs: seq<Input>)
    requires cycles <= 1 || cycles > CYCLE_WRAP
    ensures Run(cycles, inputs).received == []
  {
    RunStaysStuck(cycles, inputs);
  }

  /** Every period accepts the byte at once. */
  lemma {:induction false} OneByteAccepted(cycles: nat, n: nat)
    ensures var w := Run(cycles, OneByte(n)); |w.accepted| > 0 && w.accepted[0] == Event(0, Zero())
  {
    OneByteRuns(cycles, n);
    if n > 0 {
      OneByteAccepted(cycles, n - 1);
      hide RxStep, TxStep;
    }
  }

  /** With two cycles per bit, the transmitter a cycles after it accepted the zero byte. */
  ghost predicate TwoCycleTx(a: nat, t: Tx)
  {
    && (a <= 2 ==> t.state == START && t.cycle == a - 1)
    && (3 <= a <= 18 ==> t.state == BYTE && t.bit == (a - 3) / 2 && t.cycle == (a - 3) % 2)
    && (19 <= a <= 20 ==> t.state == STOP && t.cycle == a - 19)
    && (21 <= a ==> t.state == IDLE)
    && t.latch == Zero() && t.line == (a <= 1 || a >= 20)
  }

  ghost predicate TwoCycleRx(a: nat, r: Rx)
  {
    && (a <= 3 ==> r.state == IDLE)
    && (a == 1 ==> r.d0) && (a == 2 ==> r.d0 && r.d1) && (a == 3 ==> !r.d0 && r.d1)
    && (4 <= a <= 5 ==> r.state == START && r.cycle == a - 4)
    && (6 <= a <= 21 ==> r.state == BYTE && r.bit == (a - 6) / 2 && r.cycle == (a - 6) % 2)
    && (a == 22 ==> r.state == STOP && r.cycle == 0)
    && (a == 23 ==> r.state == DATA)
    && (a >= 21 ==> r.data[BITS - 1])
    && (r.valid <==> a == 23)
  }

  ghost predicate TwoCycleShape(a: nat, w: World)
  {
    w.now == a && w.accepted == [Event(0, Zero())] && w.received == [] && TwoCycleTx(a, w.tx) && TwoCycleRx(a, w.rx)
  }

  lemma TwoCycleTxStep(a: nat, t: Tx)
    requires 1 <= a < 23 && TwoCycleTx(a, t)
    ensures TwoCycleTx(a + 1, TxStep(2, t, Input(false, Zero())))
  {
    if 3 <= a <= 18 {
      assert BitOf(Zero(), t.bit) == false;
    }
  }

  lemma TwoCycleRxStep(a: nat, r: Rx)
    requires 1 <= a < 23 && TwoCycleRx(a, r)
    ensures TwoCycleRx(a + 1, RxStep(2, r, a <= 1 || a >= 20, true))
  {
  }

  lemma TwoCycleFirst()
    ensures TwoCycleShape(1, Tick(2, Reset(), Input(true, Zero())))
  {
  }

  lemma TwoCycleStep(a: nat, w: World)
    requires 1 <= a < 23 && TwoCycleShape(a, w)
    ensures TwoCycleShape(a + 1, Tick(2, w, Input(false, Zero())))
  {
    assert w.tx.line == (a <= 1 || a >= 20) && !w.rx.valid;
    TwoCycleTxStep(a, w.tx);
    TwoCycleRxStep(a, w.rx);
    hide RxStep, TxStep, TwoCycleTx, TwoCycleRx;
  }

  lemma {:induction false} TwoCycleRun(a: nat)
    requires 1 <= a <= 23
    ensures TwoCycleShape(a, Run(2, OneByte(a - 1)))
  {
    OneByteRuns(2, a - 1);
    if a == 1 {
      TwoCycleFirst();
    } else {
      TwoCycleRun(a - 1);
      TwoCycleStep(a - 1, Run(2, OneByte(a - 2)));
      hide Tick, TwoCycleShape;
    }
  }

  /** Two cycles per bit sample a bit too late: the stop bit becomes the last data bit. */
  lemma TwoCyclesCorrupt()
    ensures var w := Run(2, OneByte(23));
            w.accepted == [Event(0, Zero())] && |w.received| == 1 && w.received[0].data != Zero() && !OnTime(2, w)
  {
    TwoCycleRun(23);
    OneByteRuns(2, 23);
    var w := Run(2, OneByte(23));
    assert w.received[0].data[BITS - 1] && !Zero()[BITS - 1];
  }

  lemma ExactRange(cycles: nat)
    ensures (forall inputs :: OnTime(cycles, Run(cycles, inputs))) <==> 3 <= cycles <= CYCLE_WRAP
  {
    if 3 <= cycles <= CYCLE_WRAP {
      forall inputs ensures OnTime(cycles, Run(cycles, inputs)) {
        LoopbackDelivers(cycles, inputs);
      }
    } else if cycles == 2 {
      TwoCyclesCorrupt();
    } else {
      var n := Latency(cycles);
      NothingArrives(cycles, OneByte(n));
      OneByteAccepted(cycles, n);
      ClockCounts(cycles, OneByte(n));
      var w := Run(cycles, OneByte(n));
      assert w.accepted[0].time + Latency(cycles) < w.now;
      assert !OnTime(cycles, w);
    }
  }
}
