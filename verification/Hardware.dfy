/** The part of the PHY that calibration drives: for one DQS group, the scan-chain
    register file with its delay and phase settings, and the memory behind it. */
module Hardware {

  /** Chain lengths, tap sizes and reserves, as generated into sequencer_defines.h. */
  datatype Config = Config(
    dqPerDqs: nat,
    ioInDelayMax: nat,
    dqsInDelayMax: nat,
    ioOut1DelayMax: nat,
    dqsEnPhaseMax: nat,
    dqsEnDelayMax: nat,
    dqdqsOutPhaseMax: nat,
    delayPerOpaTap: nat,
    delayPerDqsEnTap: nat,
    vfifoSize: nat,
    dqsInReserve: nat,
    dqsOutReserve: nat)
  {
    predicate Valid() {
      && 2 <= dqPerDqs
      && 1 <= vfifoSize
      && 3 <= dqsEnPhaseMax
      && dqsInReserve <= dqsInDelayMax
      && dqsOutReserve <= ioOut1DelayMax
      && 0 < delayPerDqsEnTap < delayPerOpaTap
      && delayPerOpaTap <= delayPerDqsEnTap * dqsEnDelayMax
      && delayPerOpaTap <= delayPerDqsEnTap * (ioOut1DelayMax + 1)
    }
  }

  /** The configuration this repository ships. */
  const SHIPPED := Config(8, 31, 31, 31, 7, 31, 0, 416, 25, 16, 4, 4)

  /** Everything a read or write test depends on: the scan-chain settings of the
      group and the position of its read-valid FIFO. */
  datatype Settings = Settings(
    dqsIn: int,
    dqIn: seq<int>,
    enPhase: int,
    enDelay: int,
    vfifo: int,
    outPhase: int,
    dqsOut: int,
    octOut: int,
    dqOut: seq<int>,
    dmOut: int)

  /** The memory seen through the tests. The first argument numbers the tests of a run,
      so that a marginal memory may answer the same settings differently each time. */
  datatype Memory = Memory(
    readBit: (nat, Settings, nat) -> bool,
    writeBit: (nat, Settings, nat) -> bool,
    dmBits: (nat, Settings) -> bool,
    patterns: (nat, Settings) -> bool)

  predicate Shaped(c: Config, s: Settings) {
    |s.dqIn| == c.dqPerDqs && |s.dqOut| == c.dqPerDqs && 0 <= s.vfifo < c.vfifoSize
  }

  /** Every setting is one its delay chain or phase selector can take. */
  ghost predicate InRange(c: Config, s: Settings) {
    && 0 <= s.dqsIn <= c.dqsInDelayMax
    && (forall i | 0 <= i < |s.dqIn| :: 0 <= s.dqIn[i] <= c.ioInDelayMax)
    && 0 <= s.enPhase <= c.dqsEnPhaseMax
    && 0 <= s.enDelay <= c.dqsEnDelayMax
    && 0 <= s.outPhase <= c.dqdqsOutPhaseMax
    && 0 <= s.dqsOut <= c.ioOut1DelayMax
    && 0 <= s.octOut <= c.ioOut1DelayMax
    && (forall i | 0 <= i < |s.dqOut| :: 0 <= s.dqOut[i] <= c.ioOut1DelayMax)
    && 0 <= s.dmOut <= c.ioOut1DelayMax
  }

  /** The VFIFO pointer after one increment. */
  function NextPointer(pointer: int, size: int): int {
    if pointer + 1 == size then 0 else pointer + 1
  }

  function Uniform(n: nat, d: int): seq<int> {
    seq(n, _ => d)
  }

  class DqsGroup {
    const c: Config
    const mem: Memory

    var regs: Settings
    /** How many read and write tests have been run. */
    var tests: nat

    /** No store so far has left a setting out of its range. */
    ghost var safe: bool
    /** How many times DQS-enable phase 0 has been stored. */
    ghost var phaseZeroStores: nat

    constructor (c: Config, mem: Memory)
      requires c.Valid()
      ensures this.c == c && this.mem == mem && Valid() && safe && tests == 0 && phaseZeroStores == 0
    {
      this.c, this.mem := c, mem;
      var zeros := Uniform(c.dqPerDqs, 0);
      regs := Settings(0, zeros, 0, 0, 0, 0, 0, 0, zeros, 0);
      tests, safe, phaseZeroStores := 0, true, 0;
    }

    ghost predicate Valid()
      reads this
    {
      c.Valid() && Shaped(c, regs) && (safe ==> InRange(c, regs))
    }

    /** What no calibration step changes: the group stays well formed, stays safe if it
        was, and tests only get numbered upward. */
    twostate predicate Stepped()
      reads this
    {
      Valid() && (old(safe) ==> safe) && old(tests) <= tests
    }

    method SetDqsBusInDelay(delay: int)
      requires Valid()
      modifies this
      ensures Valid() && regs == old(regs).(dqsIn := delay) && tests == old(tests)
      ensures safe == (old(safe) && 0 <= delay <= c.dqsInDelayMax)
      ensures phaseZeroStores == old(phaseZeroStores)
    {
      regs := regs.(dqsIn := delay);
      safe := safe && InRange(c, regs);
    }

    method SetDqInDelay(pin: nat, delay: int)
      requires Valid() && pin < c.dqPerDqs
      modifies this
      ensures Valid() && regs == old(regs).(dqIn := old(regs).dqIn[pin := delay]) && tests == old(tests)
      ensures safe == (old(safe) && 0 <= delay <= c.ioInDelayMax)
      ensures phaseZeroStores == old(phaseZeroStores)
    {
      regs := regs.(dqIn := regs.dqIn[pin := delay]);
      safe := safe && 0 <= delay <= c.ioInDelayMax;
    }

    method SetDqsEnPhase(phase: int)
      requires Valid()
      modifies this
      ensures Valid() && regs == old(regs).(enPhase := phase) && tests == old(tests)
      ensures safe == (old(safe) && 0 <= phase <= c.dqsEnPhaseMax)
      ensures phaseZeroStores == old(phaseZeroStores) + if phase == 0 then 1 else 0
    {
      regs := regs.(enPhase := phase);
      safe := safe && InRange(c, regs);
      if phase == 0 {
        phaseZeroStores := phaseZeroStores + 1;
      }
    }

    method SetDqsEnDelay(delay: int)
      requires Valid()
      modifies this
      ensures Valid() && regs == old(regs).(enDelay := delay) && tests == old(tests)
      ensures safe == (old(safe) && 0 <= delay <= c.dqsEnDelayMax)
      ensures phaseZeroStores == old(phaseZeroStores)
    {
      regs := regs.(enDelay := delay);
      safe := safe && InRange(c, regs);
    }

    method SetDqdqsOutputPhase(phase: int)
      requires Valid()
      modifies this
      ensures Valid() && regs == old(regs).(outPhase := phase) && tests == old(tests)
      ensures safe == (old(safe) && 0 <= phase <= c.dqdqsOutPhaseMax)
      ensures phaseZeroStores == old(phaseZeroStores)
    {
      regs := regs.(outPhase := phase);
      safe := safe && InRange(c, regs);
    }

    /** DQS output and on-die-termination delay always move together. */
    method SetDqsIoAndOctOut1(delay: int)
      requires Valid()
      modifies this
      ensures Valid() && regs == old(regs).(dqsOut := delay, octOut := delay) && tests == old(tests)
      ensures safe == (old(safe) && 0 <= delay <= c.ioOut1DelayMax)
      ensures phaseZeroStores == old(phaseZeroStores)
    {
      regs := regs.(dqsOut := delay, octOut := delay);
      safe := safe && InRange(c, regs);
    }

    /** The termination delay alone, as the reset of all groups sets it. */
    method SetOctOut1Delay(delay: int)
      requires Valid()
      modifies this
      ensures Valid() && regs == old(regs).(octOut := delay) && tests == old(tests)
      ensures safe == (old(safe) && 0 <= delay <= c.ioOut1DelayMax)
      ensures phaseZeroStores == old(phaseZeroStores)
    {
      regs := regs.(octOut := delay);
      safe := safe && InRange(c, regs);
    }

    method SetDqOut1Delay(pin: nat, delay: int)
      requires Valid() && pin < c.dqPerDqs
      modifies this
      ensures Valid() && regs == old(regs).(dqOut := old(regs).dqOut[pin := delay]) && tests == old(tests)
      ensures safe == (old(safe) && 0 <= delay <= c.ioOut1DelayMax)
      ensures phaseZeroStores == old(phaseZeroStores)
    {
      regs := regs.(dqOut := regs.dqOut[pin := delay]);
      safe := safe && 0 <= delay <= c.ioOut1DelayMax;
    }

    /** All DM pins of the group get the same delay. */
    method SetGroupDmOut1Delay(delay: int)
      requires Valid()
      modifies this
      ensures Valid() && regs == old(regs).(dmOut := delay) && tests == old(tests)
      ensures safe == (old(safe) && 0 <= delay <= c.ioOut1DelayMax)
      ensures phaseZeroStores == old(phaseZeroStores)
    {
      regs := regs.(dmOut := delay);
      safe := safe && InRange(c, regs);
    }

    /** One pulse on the hard VFIFO's only increment signal. */
    method PulseVfifo()
      requires Valid()
      modifies this
      ensures Valid() && regs == old(regs).(vfifo := NextPointer(old(regs).vfifo, c.vfifoSize)) && tests == old(tests)
      ensures safe == old(safe) && phaseZeroStores == old(phaseZeroStores)
    {
      regs := regs.(vfifo := NextPointer(regs.vfifo, c.vfifoSize));
    }
  }
}
