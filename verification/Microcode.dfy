/** The read/write manager's instruction memory and the machine that runs it. */
module Microcode {
  import opened Arith

  const IDLE_LOOP2: nat := 0x7A
  const IDLE_LOOP1: nat := 0x7B

  /** Commands, as the address/command ROM numbers them. */
  const AC_WRITE_DATA: nat := 0x19
  const AC_WRITE_NODATA: nat := 0x1B
  const AC_WRITE_NODATA_WL_1: nat := 0x1C

  /** Mode setting, activation and the guaranteed pattern: addresses 0 to 0x20. */
  const SETUP_WORDS: seq<nat> := [
    0x80000, 0x80680, 0x8180, 0x8200, 0x8280, 0x8300, 0x8380, 0x8100,
    0x8480, 0x8500, 0x8580, 0x8600, 0x8400, 0x800, 0x8680, 0x880,
    0xa680, 0x80680, 0x900, 0x80680, 0x980, 0xa680, 0x8680, 0x80680,
    0xb68, 0xcce8, 0xae8, 0x8ce8, 0xb88, 0xec88, 0xa08, 0xac88,
    0x80680]

  /** The write test: addresses 0x21 to 0x34. */
  const WRITE_WORDS: seq<nat> := [
    0xce00, 0xcd80, 0xe700, 0xc00, 0x20ce0, 0x20ce0, 0x20ce0, 0x20ce0,
    0xd00, 0x680, 0x680, 0x680, 0x680, 0x60e80, 0x61080, 0x61080,
    0x61080, 0xa680, 0x8680, 0x80680]

  /** The write test with data masks: addresses 0x35 to 0x48. */
  const WRITE_DM_WORDS: seq<nat> := [
    0xce00, 0xcd80, 0xe700, 0xc00, 0x30ce0, 0x30ce0, 0x30ce0, 0x30ce0,
    0xd00, 0x680, 0x680, 0x680, 0x680, 0x70e80, 0x71080, 0x71080,
    0x71080, 0xa680, 0x8680, 0x80680]

  /** Reads: addresses 0x49 to 0x69. */
  const READ_WORDS: seq<nat> := [
    0x1158, 0x6d8, 0x80680, 0x1168, 0x7e8, 0x7e8, 0x87e8, 0x40fe8,
    0x410e8, 0x410e8, 0x410e8, 0x1168, 0x7e8, 0x7e8, 0xa7e8, 0x80680,
    0x40e88, 0x41088, 0x41088, 0x41088, 0x40f68, 0x410e8, 0x410e8, 0x410e8,
    0xa680, 0x40fe8, 0x410e8, 0x410e8, 0x410e8, 0x41008, 0x41088, 0x41088,
    0x41088]

  /** Waiting and resetting: addresses 0x6A to 0x7E. */
  const IDLE_WORDS: seq<nat> := [
    0x1100, 0xc680, 0x8680, 0xe680, 0x80680, 0x0, 0x8000, 0xa000,
    0xc000, 0x80000, 0x80, 0x8080, 0xa080, 0xc080, 0x80080, 0x9180,
    0x8680, 0xa680, 0x80680, 0x40f08, 0x80680]

  const ROM: seq<nat> := SETUP_WORDS + WRITE_WORDS + WRITE_DM_WORDS + READ_WORDS + IDLE_WORDS

  /** An instruction: the command it issues, whether it uses generated data and data masks, and
      what it does to the program counter. */
  datatype Flow = Next | JumpUnlessZero(counter: nat) | End
  datatype Instruction = Instruction(command: nat, useData: bool, useMask: bool, flow: Flow)

  const COUNTERS: nat := 4

  /** Bit 19 ends the program, bit 17 stands for data and bit 16 for their masks, bit 15 makes a
      jump on the counter in bits 14 and 13, bits 12 to 7 are the command. */
  function Decode(word: nat): (i: Instruction)
    ensures i.flow.JumpUnlessZero? ==> i.flow.counter < COUNTERS
  {
    Instruction(word / 0x80 % 0x40, word / 0x20000 % 2 == 1, word / 0x10000 % 2 == 1,
                if word / 0x80000 % 2 == 1 then End
                else if word / 0x8000 % 2 == 1 then JumpUnlessZero(word / 0x2000 % 4)
                else Next)
  }

  predicate UsesCounters(code: seq<Instruction>) {
    forall a: nat | a < |code| :: code[a].flow.JumpUnlessZero? ==> code[a].flow.counter < COUNTERS
  }

  /** What the counters are reloaded with, and where their jumps go. An address past the end of
      the memory ends the program. */
  datatype Machine = Machine(code: seq<Instruction>, load: seq<nat>, target: seq<nat>) {
    predicate Valid() {
      |load| == |target| == COUNTERS && UsesCounters(code)
    }

    function Flow(a: nat): (f: Flow)
      requires Valid()
      ensures f.JumpUnlessZero? ==> f.counter < COUNTERS
    {
      if a < |code| then code[a].flow else End
    }
  }

  datatype State = State(pc: nat, count: seq<nat>, halted: bool)

  /** One instruction. A jump tests its counter before decrementing it; a jump not taken
      reloads it. */
  function Step(m: Machine, s: State): (t: State)
    requires m.Valid() && |s.count| == COUNTERS && !s.halted
    ensures |t.count| == COUNTERS
  {
    match m.Flow(s.pc)
    case End => s.(halted := true)
    case Next => s.(pc := s.pc + 1)
    case JumpUnlessZero(c) =>
      if s.count[c] != 0 then s.(pc := m.target[c], count := s.count[c := s.count[c] - 1])
      else s.(pc := s.pc + 1, count := s.count[c := m.load[c]])
  }

  /** The machine goes from s to t by executing exactly the instructions at `trace`. */
  predicate Goes(m: Machine, s: State, trace: seq<nat>, t: State)
    requires m.Valid() && |s.count| == COUNTERS
    decreases |trace|
  {
    if trace == [] then s == t
    else !s.halted && s.pc == trace[0] && Goes(m, Step(m, s), trace[1..], t)
  }

  lemma {:induction false} Compose(m: Machine, s: State, a: seq<nat>, t: State, b: seq<nat>, u: State)
    requires m.Valid() && |s.count| == |t.count| == COUNTERS
    requires Goes(m, s, a, t) && Goes(m, t, b, u)
    ensures Goes(m, s, a + b, u)
    decreases |a|
  {
    if a == [] {
      assert a + b == b;
    } else {
      Compose(m, Step(m, s), a[1..], t, b, u);
      assert (a + b)[1..] == a[1..] + b;
    }
  }

  /** A program has at most one complete run from a state. */
  lemma {:induction false} RunsAreUnique(m: Machine, s: State, a: seq<nat>, t: State, b: seq<nat>, u: State)
    requires m.Valid() && |s.count| == COUNTERS
    requires Goes(m, s, a, t) && Goes(m, s, b, u) && t.halted && u.halted
    ensures a == b && t == u
    decreases |a|
  {
    if a != [] && b != [] {
      RunsAreUnique(m, Step(m, s), a[1..], t, b[1..], u);
      assert a == [a[0]] + a[1..] && b == [b[0]] + b[1..];
    }
  }

  function Stay(a: nat, n: nat): (s: seq<nat>)
    ensures |s| == n
  {
    if n == 0 then [] else [a] + Stay(a, n - 1)
  }

  function Range(a: nat, n: nat): (s: seq<nat>)
    ensures |s| == n
    decreases n
  {
    if n == 0 then [] else [a] + Range(a + 1, n - 1)
  }

  function Repeat(s: seq<nat>, n: nat): (r: seq<nat>)
    ensures |r| == Times(n, |s|)
  {
    if n == 0 then [] else s + Repeat(s, n - 1)
  }

  lemma OneStep(m: Machine, s: State)
    requires m.Valid() && |s.count| == COUNTERS && !s.halted
    ensures Goes(m, s, [s.pc], Step(m, s))
  {
    assert Goes(m, Step(m, s), [s.pc][1..], Step(m, s));
  }

  /** Instructions without a jump run one after the other. */
  lemma {:induction false} Straight(m: Machine, s: State, n: nat)
    requires m.Valid() && |s.count| == COUNTERS && !s.halted
    requires forall a | s.pc <= a < s.pc + n :: m.Flow(a) == Next
    ensures Goes(m, s, Range(s.pc, n), s.(pc := s.pc + n))
    decreases n
  {
    if n > 0 {
      Straight(m, Step(m, s), n - 1);
    }
  }

  /** An instruction that jumps to itself runs once more than its counter says, and leaves the
      counter reloaded. */
  lemma {:induction false} Spin(m: Machine, s: State, c: nat)
    requires m.Valid() && |s.count| == COUNTERS && !s.halted
    requires c < COUNTERS && m.Flow(s.pc) == JumpUnlessZero(c) && m.target[c] == s.pc
    ensures Goes(m, s, Stay(s.pc, s.count[c] + 1), s.(pc := s.pc + 1, count := s.count[c := m.load[c]]))
    decreases s.count[c]
  {
    var t := Step(m, s);
    if s.count[c] != 0 {
      Spin(m, t, c);
      assert t.count[c := m.load[c]] == s.count[c := m.load[c]];
    }
  }

  /** Runs a program that is known to end: executes exactly its one complete run. */
  method Execute(m: Machine, start: State, ghost path: seq<nat>, ghost end: State)
    returns (trace: seq<nat>, s: State)
    requires m.Valid() && |start.count| == COUNTERS
    requires end.halted && Goes(m, start, path, end)
    ensures trace == path && s == end && |s.count| == COUNTERS
  {
    s, trace := start, [];
    while !s.halted
      invariant |s.count| == COUNTERS && trace <= path && Goes(m, s, path[|trace|..], end)
      decreases |path| - |trace|
    {
      ghost var n := |trace|;
      trace := trace + [s.pc];
      s := Step(m, s);
      assert path[n..][1..] == path[n + 1..];
    }
  }

  function DecodeAll(words: seq<nat>): (code: seq<Instruction>)
    ensures |code| == |words| && UsesCounters(code)
    ensures forall a: nat | a < |words| :: code[a] == Decode(words[a])
  {
    seq(|words|, i requires 0 <= i < |words| => Decode(words[i]))
  }

  /** The read/write manager, with the trace of all instructions it has executed. */
  class RwManager {
    const code: seq<Instruction>
    var load: seq<nat>
    var target: seq<nat>
    var count: seq<nat>
    var trace: seq<nat>

    constructor (code: seq<Instruction>)
      requires UsesCounters(code)
      ensures Valid() && trace == [] && this.code == code
    {
      this.code := code;
      load, target, count := [0, 0, 0, 0], [0, 0, 0, 0], [0, 0, 0, 0];
      trace := [];
    }

    ghost predicate Valid()
      reads this
    {
      |load| == |target| == |count| == COUNTERS && UsesCounters(code)
    }

    function Now(): (m: Machine)
      requires Valid()
      reads this
      ensures m.Valid()
    {
      Machine(code, load, target)
    }

    /** Loads a counter register, which is eight bits wide. */
    method LoadCounter(i: nat, v: nat)
      requires Valid() && i < COUNTERS
      modifies this
      ensures Valid() && trace == old(trace) && target == old(target)
      ensures load == old(load)[i := v % 0x100] && count == old(count)[i := v % 0x100]
    {
      load := load[i := v % 0x100];
      count := count[i := v % 0x100];
    }

    method LoadJump(i: nat, a: nat)
      requires Valid() && i < COUNTERS
      modifies this
      ensures Valid() && trace == old(trace) && load == old(load) && count == old(count)
      ensures target == old(target)[i := a]
    {
      target := target[i := a];
    }

    /** Runs the program at `entry`, which is known to end. */
    method Run(entry: nat, ghost path: seq<nat>, ghost end: State)
      requires Valid() && end.halted && Goes(Now(), State(entry, count, false), path, end)
      modifies this
      ensures Valid() && load == old(load) && target == old(target)
      ensures trace == old(trace) + path && count == end.count
    {
      var run, s := Execute(Now(), State(entry, count, false), path, end);
      trace := trace + run;
      count := s.count;
    }
  }
}
