/**
  The range finder's interrupt-driven state machine: each interrupt runs
  one step, which either issues the next I2C transfer to the SRF02
  ultrasonic sensor, starts the 70 ms wait timer, or takes the two range
  bytes just read and feeds them to the median filter. Register writes
  are abstracted to the transfer they request.
 */
module RangeFinder {
  import opened MedianFilter

  /** SRF02 bus address (write), and its command and range registers. */
  const SRF02_ADDR: bv8 := 0xE0
  const SRF02_CMD_REG: bv8 := 0x00
  const SRF02_RANGE_REG: bv8 := 0x02
  /** The command "start ranging, result in centimetres". */
  const RANGE_IN_CM: bv8 := 0x51

  datatype I2cState = WriteStart | ReadStart | ReadRepeated | TimerInterrupt | ReadData

  /** The transfer or timer request a step leaves behind. */
  datatype Action =
    | NoAction
    | StartTimer
      /** start, address, register, payload, stop */
    | WriteRegister(addr: bv8, reg: bv8, payload: seq<bv8>)
      /** start, address, register; no stop, a repeated start follows */
    | SelectRegister(addr: bv8, reg: bv8)
      /** repeated start, address with the read bit, count bytes read, stop */
    | ReadBytes(addr: bv8, count: nat)

  /** The state machine's globals: the state, the last two bytes read, and the filter. */
  datatype Device = Device(state: I2cState, data: (bv8, bv8), filter: Filter)

  /** The transfer that starts a measurement: 0x51 written to the command register. */
  const StartRanging: Action := WriteRegister(SRF02_ADDR, SRF02_CMD_REG, [RANGE_IN_CM])
  /** The transfer that reads the two range bytes. */
  const ReadRange: Action := ReadBytes(SRF02_ADDR | 1, 2)

  /** Byte pairs the firmware treats as a failed read and reads again. */
  predicate IsInvalidPair(d: (bv8, bv8)) {
    (d.0 == 6 && d.1 == 0) || (d.0 == 2 && d.1 == 81)
  }

  /** The reading passed to the filter: the bitwise OR of the two bytes. */
  function Combine(d: (bv8, bv8)): (r: int)
    ensures 0 <= r < 256
    ensures d.0 as int <= r && d.1 as int <= r
    ensures d.0 == 0 ==> r == d.1 as int
    ensures d.1 == 0 ==> r == d.0 as int
  {
    (d.0 | d.1) as int
  }

  /** interrupt_start: requests a new measurement and waits for the timer next. */
  function InterruptStart(r: Device): (result: (Device, Action))
    ensures result.0.state == TimerInterrupt
    ensures result.0.data == r.data && result.0.filter == r.filter
    ensures result.1 == StartRanging
  {
    (r.(state := TimerInterrupt), StartRanging)
  }

  /**
    The ranging cycle: position of each working state in the order
    TimerInterrupt, ReadStart, ReadRepeated, ReadData, and -1 for
    WriteStart, which is not part of it.
   */
  function Phase(s: I2cState): int {
    match s
    case TimerInterrupt => 0
    case ReadStart => 1
    case ReadRepeated => 2
    case ReadData => 3
    case WriteStart => -1
  }

  /** The filter took `reading`: the ring slot, the index and the median moved on. */
  ghost predicate Added(f: Filter, reading: int, g: Filter) {
    && f.Valid() && g.Valid()
    && g.readings == f.readings[f.readIndex := reading]
    && g.readIndex == (f.readIndex + 1) % WINDOW_SIZE
    && IsMedian(g.filtered, g.readings)
  }

  /**
    One step of the state machine with rx the bytes the bus holds: the
    transition table of the firmware, including the retry on an invalid
    pair and the idle default for WriteStart.
   */
  ghost predicate Step(r: Device, rx: (bv8, bv8), r': Device, act: Action) {
    match r.state
    case TimerInterrupt => r' == r.(state := ReadStart) && act == StartTimer
    case ReadStart => r' == r.(state := ReadRepeated) && act == SelectRegister(SRF02_ADDR, SRF02_RANGE_REG)
    case ReadRepeated => r' == r.(state := ReadData) && act == ReadRange
    case ReadData =>
      if IsInvalidPair(rx) then r' == r.(data := rx) && act == ReadRange
      else && r'.state == TimerInterrupt && r'.data == rx && act == StartRanging
           && Added(r.filter, Combine(rx), r'.filter)
    case WriteStart => r' == r && act == NoAction
  }

  /**
    state_machine: one interrupt's worth of work. In ST_READ_DATA it copies
    the two bytes, retries on an invalid pair, and otherwise filters their
    OR and starts the next measurement.
   */
  method StateMachine(r: Device, rx: (bv8, bv8)) returns (r': Device, act: Action)
    requires r.filter.Valid()
    ensures Step(r, rx, r', act)
    ensures r'.filter.Valid()
  {
    match r.state {
      case TimerInterrupt =>
        r', act := r.(state := ReadStart), StartTimer;
      case ReadStart =>
        r', act := r.(state := ReadRepeated), SelectRegister(SRF02_ADDR, SRF02_RANGE_REG);
      case ReadRepeated =>
        r', act := r.(state := ReadData), ReadRange;
      case ReadData =>
        var data := rx;
        if IsInvalidPair(data) {
          r', act := r.(data := data), ReadRange;
        } else {
          var reading := Combine(data);
          var filter := AddReading(r.filter, reading);
          var started := InterruptStart(r.(data := data, filter := filter));
          r', act := started.0, started.1;
        }
      case WriteStart =>
        r', act := r, NoAction;
    }
  }

  /**
    Every step of the cycle moves one place on around it, except a retry,
    which stays in ReadData; WriteStart is never entered from the cycle and
    never left.
   */
  lemma StepFollowsCycle(r: Device, rx: (bv8, bv8), r': Device, act: Action)
    requires Step(r, rx, r', act)
    ensures r.state == WriteStart <==> r'.state == WriteStart
    ensures r.state != WriteStart ==>
              (Phase(r'.state) == (Phase(r.state) + 1) % 4) || (r.state == r'.state == ReadData && IsInvalidPair(rx))
  {
  }

  /** Only a valid ReadData step touches the filter; every other step leaves it as it was. */
  lemma FilterChangesOnlyOnValidData(r: Device, rx: (bv8, bv8), r': Device, act: Action)
    requires Step(r, rx, r', act)
    ensures r'.filter != r.filter ==> r.state == ReadData && !IsInvalidPair(rx)
  {
  }

  /**
    What the machine keeps true: the filter ring is well formed, the
    filtered reading is the median of the ring, and the state is on the
    ranging cycle.
   */
  ghost predicate Invariant(r: Device) {
    r.filter.Valid() && IsMedian(r.filter.filtered, r.filter.readings) && r.state != WriteStart
  }

  /** After start-up: interrupt_start on the zero-initialised globals. */
  lemma StartUpEstablishesInvariant(r: Device)
    requires r.filter == Initial
    ensures Invariant(InterruptStart(r).0)
  {
    InitialIsMedian();
  }

  /** A run of steps: rs[k+1] and acts[k] come from rs[k] and the bus bytes rxs[k]. */
  ghost predicate IsRun(rs: seq<Device>, rxs: seq<(bv8, bv8)>, acts: seq<Action>) {
    && |rs| == |rxs| + 1 && |acts| == |rxs|
    && forall k :: 0 <= k < |rxs| ==> Step(rs[k], rxs[k], rs[k + 1], acts[k])
  }

  /** The invariant holds all along a run that starts in it. */
  lemma {:induction false} RunKeepsInvariant(rs: seq<Device>, rxs: seq<(bv8, bv8)>, acts: seq<Action>)
    requires IsRun(rs, rxs, acts) && Invariant(rs[0])
    ensures forall k :: 0 <= k < |rs| ==> Invariant(rs[k])
    decreases |rxs|
  {
    if |rxs| > 0 {
      var n := |rxs|;
      RunKeepsInvariant(rs[..n], rxs[..n - 1], acts[..n - 1]);
      assert Step(rs[n - 1], rxs[n - 1], rs[n], acts[n - 1]);
      assert Invariant(rs[n - 1]);
    }
  }

  /**
    One full measurement: from TimerInterrupt, four steps whose ReadData
    step sees a valid pair issue the timer start, the register select, the
    read and the next ranging command, in that order, and come back to
    TimerInterrupt with exactly that reading added to the filter.
   */
  lemma MeasurementRound(rs: seq<Device>, rxs: seq<(bv8, bv8)>, acts: seq<Action>)
    requires IsRun(rs, rxs, acts) && |rxs| == 4
    requires rs[0].state == TimerInterrupt && !IsInvalidPair(rxs[3])
    ensures acts == [StartTimer, SelectRegister(SRF02_ADDR, SRF02_RANGE_REG), ReadRange, StartRanging]
    ensures rs[4].state == TimerInterrupt
    ensures rs[4].data == rxs[3]
    ensures Added(rs[0].filter, Combine(rxs[3]), rs[4].filter)
  {
    assert Step(rs[0], rxs[0], rs[1], acts[0]);
    assert Step(rs[1], rxs[1], rs[2], acts[1]);
    assert Step(rs[2], rxs[2], rs[3], acts[2]);
    assert Step(rs[3], rxs[3], rs[4], acts[3]);
  }

  /**
    An invalid pair keeps the machine in ReadData, re-issuing the read,
    for as long as invalid pairs keep coming; the filter does not change.
   */
  lemma {:induction false} InvalidDataRetries(rs: seq<Device>, rxs: seq<(bv8, bv8)>, acts: seq<Action>)
    requires IsRun(rs, rxs, acts) && rs[0].state == ReadData
    requires forall k :: 0 <= k < |rxs| ==> IsInvalidPair(rxs[k])
    ensures forall k :: 0 <= k < |rs| ==> rs[k].state == ReadData && rs[k].filter == rs[0].filter
    ensures forall k :: 0 <= k < |acts| ==> acts[k] == ReadRange
    decreases |rxs|
  {
    if |rxs| > 0 {
      var n := |rxs|;
      InvalidDataRetries(rs[..n], rxs[..n - 1], acts[..n - 1]);
      assert Step(rs[n - 1], rxs[n - 1], rs[n], acts[n - 1]);
      assert rs[n - 1].state == ReadData;
    }
  }
}
