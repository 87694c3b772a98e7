/** What a client and a listener see of the transmitter: when it is ready, what it accepts, what the line carries. */
module UartTiming {
  import opened Arithmetic
  import opened Uart
  import opened UartLoopback

  /** Every accepted byte was accepted more than ten bit periods ago. */
  ghost predicate Quiet(cycles: nat, w: World)
  {
    forall i | 0 <= i < |w.accepted| :: w.accepted[i].time + 10 * cycles < w.now
  }

  /** The byte being sent is the last one accepted, and the transmitter has been at it since. */
  ghost predicate Sending(cycles: nat, w: World)
  {
    var n := |w.accepted|;
    && n > 0 && w.accepted[n - 1].data == w.tx.latch && w.accepted[n - 1].time + TxAge(cycles, w.tx) == w.now
    && forall i | 0 <= i < n - 1 :: w.accepted[i].time + 10 * cycles < w.accepted[n - 1].time
  }

  /** The acceptance times lie more than ten bit periods apart. */
  ghost predicate Spaced(cycles: nat, w: World)
  {
    forall i, j | 0 <= i < j < |w.accepted| :: w.accepted[i].time + 10 * cycles < w.accepted[j].time
  }

  ghost predicate Timed(cycles: nat, w: World)
  {
    && TxOk(cycles, w.tx)
    && (if w.tx.state == IDLE then Quiet(cycles, w) else Sending(cycles, w))
    && (w.tx.ready <==> w.now > 0 && w.tx.state == IDLE)
    && Spaced(cycles, w)
  }

  lemma AgeAtEnd(cycles: nat, t: Tx)
    requires 3 <= cycles && TxOk(cycles, t) && t.state != IDLE
    ensures TxAge(cycles, t) <= 10 * cycles
    ensures t.state == STOP && t.cycle == cycles - 1 ==> TxAge(cycles, t) == 10 * cycles
  {
    if t.state == BYTE {
      assert (t.bit + 1) * cycles <= 8 * cycles;
    }
  }

  lemma TickKeepsTimed(cycles: nat, w: World, i: Input)
    requires 3 <= cycles <= CYCLE_WRAP && Timed(cycles, w)
    ensures Timed(cycles, Tick(cycles, w, i))
  {
    var r := Tick(cycles, w, i);
    TxKeepsOk(cycles, w.tx, i);
    if w.tx.state != IDLE {
      AgeAdvances(cycles, w.tx, i);
      AgeAtEnd(cycles, w.tx);
      assert r.accepted == w.accepted && r.tx.latch == w.tx.latch;
    }
    hide RxStep;
  }

  lemma {:induction false} RunIsTimed(cycles: nat, inputs: seq<Input>)
    requires 3 <= cycles <= CYCLE_WRAP
    ensures Timed(cycles, Run(cycles, inputs)) && Run(cycles, inputs).now == |inputs|
  {
    ClockCounts(cycles, inputs);
    if inputs != [] {
      RunIsTimed(cycles, inputs[..|inputs| - 1]);
      TickKeepsTimed(cycles, Run(cycles, inputs[..|inputs| - 1]), inputs[|inputs| - 1]);
    }
  }

  lemma QuietIsIdle(cycles: nat, w: World)
    requires 3 <= cycles <= CYCLE_WRAP && Timed(cycles, w)
    ensures Quiet(cycles, w) <==> w.tx.state == IDLE
  {
    if w.tx.state != IDLE {
      AgeAtEnd(cycles, w.tx);
    }
  }

  /** Ready is up in every cycle but the first in which no byte of the last ten bit periods is being sent. */
  lemma ReadyExactly(cycles: nat, inputs: seq<Input>)
    requires 3 <= cycles <= CYCLE_WRAP
    ensures var w := Run(cycles, inputs);
            w.tx.ready <==> inputs != [] && forall i | 0 <= i < |w.accepted| :: w.accepted[i].time + 10 * cycles < w.now
  {
    RunIsTimed(cycles, inputs);
    QuietIsIdle(cycles, Run(cycles, inputs));
  }

  /** A byte is accepted exactly when it is offered and no other has been for ten bit periods. */
  lemma AcceptedExactly(cycles: nat, inputs: seq<Input>, i: Input)
    requires 3 <= cycles <= CYCLE_WRAP
    ensures var w := Run(cycles, inputs);
            Run(cycles, inputs + [i]).accepted ==
            if i.valid && forall k | 0 <= k < |w.accepted| :: w.accepted[k].time + 10 * cycles < |inputs|
            then w.accepted + [Event(|inputs|, i.data)]
            else w.accepted
  {
    RunIsTimed(cycles, inputs);
    QuietIsIdle(cycles, Run(cycles, inputs));
    assert (inputs + [i])[..|inputs|] == inputs;
  }

  /** The ten bits of a frame: a low start bit, the data least significant bit first, a high stop bit. */
  function FrameBit(b: Octet, p: nat): (r: bool)
  {
    if p == 0 then false else if p <= 8 then b[p - 1] else true
  }

  /** The line a cycles after a byte was accepted: two cycles late, then a bit period for each bit, then high. */
  function Level(cycles: nat, b: Octet, a: nat): (r: bool)
    requires cycles > 0
  {
    if a < 2 then true else FrameBit(b, (a - 2) / cycles)
  }

  lemma LevelOf(cycles: nat, t: Tx)
    requires 3 <= cycles && TxOk(cycles, t) && t.state != IDLE
    ensures t.line == Level(cycles, t.latch, TxAge(cycles, t))
  {
    var a, p := TxAge(cycles, t), TxPeriod(t);
    if t.cycle > 0 {
      PeriodIs(cycles, p, t.cycle - 1);
    } else if p > 0 {
      assert a - 2 == (p - 1) * cycles + (cycles - 1);
      PeriodIs(cycles, p - 1, cycles - 1);
    }
  }

  lemma PeriodIs(cycles: nat, p: nat, c: nat)
    requires c < cycles
    ensures (p * cycles + c) / cycles == p
  {
    var x := p * cycles + c;
    DivAtLeast(x, cycles, p);
    DivBelow(x, cycles, p + 1);
  }

  /** The line carries the frame of the byte accepted last, cycle by cycle, and is high before and after. */
  lemma LineExactly(cycles: nat, inputs: seq<Input>)
    requires 3 <= cycles <= CYCLE_WRAP
    ensures var w := Run(cycles, inputs); var n := |w.accepted|;
            && (n == 0 ==> w.tx.line)
            && (n > 0 ==> w.now >= w.accepted[n - 1].time
                          && w.tx.line == Level(cycles, w.accepted[n - 1].data, w.now - w.accepted[n - 1].time))
  {
    RunIsTimed(cycles, inputs);
    var w := Run(cycles, inputs);
    var n := |w.accepted|;
    if w.tx.state != IDLE {
      LevelOf(cycles, w.tx);
    } else if n > 0 {
      AfterFrame(cycles, w.now - w.accepted[n - 1].time);
    }
  }

  lemma AfterFrame(cycles: nat, a: nat)
    requires cycles >= 3 && a > 10 * cycles
    ensures (a - 2) / cycles >= 9
  {
    DivAtLeast(a - 2, cycles, 9);
  }

  /** The receiver over cycles in which its client is not ready. */
  function Waiting(cycles: nat, r: Rx, pins: seq<bool>): (s: Rx)
  {
    if pins == [] then r else RxStep(cycles, Waiting(cycles, r, pins[..|pins| - 1]), pins[|pins| - 1], false)
  }

  /** A complete byte stays offered, unchanged, until the client is ready; then the offer ends after one cycle. */
  lemma {:induction false} ByteIsHeld(cycles: nat, r: Rx, pins: seq<bool>, pin: bool)
    requires r.state == DATA && r.valid && 3 <= cycles
    ensures var s := Waiting(cycles, r, pins); s.state == DATA && s.valid && s.data == r.data
    ensures var t := RxStep(cycles, Waiting(cycles, r, pins), pin, true); t.state == IDLE && !t.valid && t.data == r.data
  {
    if pins != [] {
      ByteIsHeld(cycles, r, pins[..|pins| - 1], pin);
    }
  }
}
