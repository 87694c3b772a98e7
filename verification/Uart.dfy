/**
 The serial transmitter and receiver, register by register, as clocked by one clock. A byte
 is its eight bits, least significant first. `cycles` is the number of clock cycles per bit.
 */
module Uart {

  const IDLE: nat := 1
  const START: nat := 2
  const BYTE: nat := 3
  const STOP: nat := 4
  const DATA: nat := 5

  const BITS: nat := 8
  /** Cycle counters are 16 bits wide, bit counters three. */
  const CYCLE_WRAP: nat := 0x1_0000
  const BIT_WRAP: nat := 8

  type Octet = b: seq<bool> | |b| == BITS witness seq(BITS, _ => false)

  datatype Tx = Tx(state: nat, cycle: nat, bit: nat, latch: Octet, line: bool, ready: bool)

  datatype Rx = Rx(state: nat, cycle: nat, bit: nat, d0: bool, d1: bool, data: Octet, valid: bool)

  /** What the transmitter's client drives in one cycle. */
  datatype Input = Input(valid: bool, data: Octet)

  function BitOf(b: Octet, i: nat): (r: bool)
  {
    b[i % BITS]
  }

  // ---------------------------------------------------------------- transmitter

  function TxReset(): (t: Tx)
  {
    Tx(IDLE, 0, 0, seq(BITS, _ => false), true, false)
  }

  function TxNext(cycles: nat, t: Tx, valid: bool): (s: nat)
  {
    if t.state == IDLE then if valid then START else t.state
    else if t.state == START then if t.cycle == cycles - 1 then BYTE else t.state
    else if t.state == BYTE then if t.cycle == cycles - 1 && t.bit == BITS - 1 then STOP else t.state
    else if t.state == STOP then if t.cycle == cycles - 1 then IDLE else t.state
    else IDLE
  }

  function TxStep(cycles: nat, t: Tx, i: Input): (r: Tx)
  {
    var next := TxNext(cycles, t, i.valid);
    Tx(next,
       if next != t.state || (t.state == BYTE && t.cycle == cycles - 1) then 0 else (t.cycle + 1) % CYCLE_WRAP,
       if t.state != BYTE then 0 else if t.cycle == cycles - 1 then (t.bit + 1) % BIT_WRAP else t.bit,
       if t.state == IDLE && i.valid then i.data else t.latch,
       if t.state == START then false else if t.state == BYTE then BitOf(t.latch, t.bit) else true,
       if t.state == IDLE && i.valid then false
       else if (t.state == STOP && t.cycle == cycles - 1) || (t.state == IDLE && !i.valid) then true
       else t.ready)
  }

  // ---------------------------------------------------------------- receiver

  function RxReset(): (r: Rx)
  {
    Rx(IDLE, 0, 0, false, false, seq(BITS, _ => false), false)
  }

  function RxNext(cycles: nat, r: Rx, ready: bool): (s: nat)
  {
    if r.state == IDLE then if r.d1 && !r.d0 then START else r.state
    else if r.state == START then if r.cycle == cycles - 1 then BYTE else r.state
    else if r.state == BYTE then if r.cycle == cycles - 1 && r.bit == BITS - 1 then STOP else r.state
    else if r.state == STOP then if r.cycle == cycles / 2 - 1 then DATA else r.state
    else if r.state == DATA then if ready then IDLE else r.state
    else IDLE
  }

  function RxStep(cycles: nat, r: Rx, pin: bool, ready: bool): (r': Rx)
  {
    var next := RxNext(cycles, r, ready);
    Rx(next,
       if next != r.state || (r.state == BYTE && r.cycle == cycles - 1) then 0 else (r.cycle + 1) % CYCLE_WRAP,
       if r.state != BYTE then 0 else if r.cycle == cycles - 1 then (r.bit + 1) % BIT_WRAP else r.bit,
       pin,
       r.d0,
       if r.state == BYTE && r.cycle == cycles / 2 - 1 then r.data[r.bit % BITS := pin] else r.data,
       if r.state == DATA && ready then false else if r.state == STOP && next != r.state then true else r.valid)
  }

  // ---------------------------------------------------------------- loopback

  /** A byte and the cycle in which it changed hands. */
  datatype Event = Event(time: nat, data: Octet)

  /** Both machines, the line between them, and what has been accepted and delivered. */
  datatype World = World(now: nat, tx: Tx, rx: Rx, accepted: seq<Event>, received: seq<Event>)

  function Reset(): (w: World)
  {
    World(0, TxReset(), RxReset(), [], [])
  }

  /** One clock cycle, the receiver's client always ready. */
  function Tick(cycles: nat, w: World, i: Input): (r: World)
  {
    World(w.now + 1,
          TxStep(cycles, w.tx, i),
          RxStep(cycles, w.rx, w.tx.line, true),
          if w.tx.state == IDLE && i.valid then w.accepted + [Event(w.now, i.data)] else w.accepted,
          if w.rx.valid then w.received + [Event(w.now, w.rx.data)] else w.received)
  }

  function Run(cycles: nat, inputs: seq<Input>): (w: World)
  {
    if inputs == [] then Reset()
    else Tick(cycles, Run(cycles, inputs[..|inputs| - 1]), inputs[|inputs| - 1])
  }
}
