/** Delays made of idle instructions. */
module DelayLoop {
  import opened Arith
  import opened Microcode

  const IDLE_END: nat := 0x7C

  ghost predicate IdleLoops(code: seq<Instruction>) {
    && |code| > IDLE_END
    && code[IDLE_LOOP2].flow == JumpUnlessZero(0)
    && code[IDLE_LOOP1].flow == JumpUnlessZero(1)
    && code[IDLE_END].flow == End
  }

  /** The instruction memory holds the idle loops. */
  lemma ShippedIdleLoops()
    ensures IdleLoops(DecodeAll(ROM))
  {
    assert ROM[IDLE_LOOP2] == 0x8680 && ROM[IDLE_LOOP1] == 0xa680 && ROM[IDLE_END] == 0x80680;
  }

  /** The loop over one counter. */
  function SingleLoop(inner: nat): seq<nat> {
    Stay(IDLE_LOOP1, inner + 1) + [IDLE_END]
  }

  function Pass(inner: nat): seq<nat> {
    Stay(IDLE_LOOP2, inner + 1) + [IDLE_LOOP1]
  }

  /** The nested loop over two counters. */
  function NestedLoop(inner: nat, outer: nat): (s: seq<nat>)
    ensures |s| == Times(outer + 1, inner + 2) + 1
  {
    Repeat(Pass(inner), outer + 1) + [IDLE_END]
  }

  lemma RunsSingle(m: Machine, s: State)
    requires m.Valid() && IdleLoops(m.code) && |s.count| == COUNTERS && !s.halted
    requires s.pc == IDLE_LOOP1 && m.target[1] == IDLE_LOOP1
    ensures Goes(m, s, SingleLoop(s.count[1]), State(IDLE_END, s.count[1 := m.load[1]], true))
  {
    Spin(m, s, 1);
    var t := s.(pc := IDLE_END, count := s.count[1 := m.load[1]]);
    OneStep(m, t);
    Compose(m, s, Stay(IDLE_LOOP1, s.count[1] + 1), t, [IDLE_END], Step(m, t));
  }

  /** All passes of the nested loop. */
  lemma {:induction false} RunsPasses(m: Machine, s: State)
    requires m.Valid() && IdleLoops(m.code) && |s.count| == COUNTERS && !s.halted
    requires s.pc == IDLE_LOOP2 && m.target[0] == m.target[1] == IDLE_LOOP2 && s.count[0] == m.load[0]
    ensures Goes(m, s, Repeat(Pass(m.load[0]), s.count[1] + 1),
                 s.(pc := IDLE_END, count := s.count[1 := m.load[1]]))
    decreases s.count[1]
  {
    var inner := m.load[0];
    Spin(m, s, 0);
    var t := s.(pc := IDLE_LOOP1);
    assert s.count[0 := inner] == s.count;
    OneStep(m, t);
    var u := Step(m, t);
    Compose(m, s, Stay(IDLE_LOOP2, inner + 1), t, [IDLE_LOOP1], u);
    if s.count[1] == 0 {
      assert Repeat(Pass(inner), 1) == Pass(inner) + [] == Pass(inner);
    } else {
      RunsPasses(m, u);
      var v := s.(pc := IDLE_END, count := s.count[1 := m.load[1]]);
      assert u.count[1 := m.load[1]] == s.count[1 := m.load[1]];
      Compose(m, s, Pass(inner), u, Repeat(Pass(inner), s.count[1]), v);
    }
  }

  lemma RunsNested(m: Machine, s: State)
    requires m.Valid() && IdleLoops(m.code) && |s.count| == COUNTERS && !s.halted
    requires s.pc == IDLE_LOOP2 && m.target[0] == m.target[1] == IDLE_LOOP2
    requires s.count[0] == m.load[0] && s.count[1] == m.load[1]
    ensures Goes(m, s, NestedLoop(m.load[0], m.load[1]), State(IDLE_END, s.count, true))
  {
    RunsPasses(m, s);
    var t := s.(pc := IDLE_END);
    assert s.count[1 := m.load[1]] == s.count;
    OneStep(m, t);
    Compose(m, s, Repeat(Pass(m.load[0]), m.load[1] + 1), t, [IDLE_END], Step(m, t));
  }

  function Low8(x: nat): nat {
    x % 0x100
  }

  function Low16(x: nat): nat {
    x % 0x10000
  }

  /** How many instructions a delay runs: never too few, and too many only by less than one step
      of its slowest loop and what the loops themselves cost. */
  function Cycles(clocks: nat): (n: nat)
    ensures clocks < n <= 2 * clocks + 512
    ensures 0 < clocks <= 0x100 ==> n == clocks + 1
    ensures 0x100 < clocks <= 0x10000 ==> n <= clocks + 512
    ensures 0x10000 < clocks ==> n <= clocks + 65535 + 257 * ((clocks - 1) / 0x10000 + 1)
  {
    if clocks == 0 then 2
    else if clocks <= 0x100 then clocks + 1
    else if clocks <= 0x10000 then 257 * ((clocks - 1) / 0x100 + 1) + 1
    else (257 * 256 + 1) * ((clocks - 1) / 0x10000 + 1)
  }

  /** What the nested loops take with the counters that a delay of more than 256 clocks loads. */
  lemma NestedCycles(clocks: nat, outer: nat, loops: nat)
    requires 0x100 < clocks
    requires clocks <= 0x10000 ==> outer == (clocks - 1) / 0x100 && loops == 0
    requires 0x10000 < clocks ==> outer == 0xff && loops == (clocks - 1) / 0x10000
    ensures Times(loops + 1, |NestedLoop(0xff, outer)|) == Cycles(clocks)
  {
    TimesIsProduct(outer + 1, 257);
    TimesIsProduct(loops + 1, |NestedLoop(0xff, outer)|);
  }

  /** Nothing but the idle loops. */
  ghost predicate Idling(s: seq<nat>) {
    forall a | a in s :: IDLE_LOOP2 <= a <= IDLE_END
  }

  lemma {:induction false} StayIdles(a: nat, n: nat)
    requires IDLE_LOOP2 <= a <= IDLE_END
    ensures Idling(Stay(a, n))
  {
    if n > 0 {
      StayIdles(a, n - 1);
    }
  }

  lemma {:induction false} RepeatIdles(s: seq<nat>, n: nat)
    requires Idling(s)
    ensures Idling(Repeat(s, n))
  {
    if n > 0 {
      RepeatIdles(s, n - 1);
    }
  }

  /** The trace was extended by n idle instructions. */
  ghost predicate Idled(before: seq<nat>, after: seq<nat>, n: int) {
    before <= after && |after| == |before| + n && Idling(after[|before|..])
  }

  lemma IdlesMore(before: seq<nat>, after: seq<nat>, n: int, path: seq<nat>)
    requires Idled(before, after, n) && Idling(path)
    ensures Idled(before, after + path, n + |path|)
  {
    assert (after + path)[|before|..] == after[|before|..] + path;
  }

  method RunSingleLoop(m: RwManager)
    requires m.Valid() && IdleLoops(m.code) && m.target[1] == IDLE_LOOP1
    modifies m
    ensures m.Valid()
    ensures Idled(old(m.trace), m.trace, old(m.count[1]) + 2)
  {
    RunsSingle(m.Now(), State(IDLE_LOOP1, m.count, false));
    StayIdles(IDLE_LOOP1, m.count[1] + 1);
    IdlesMore(m.trace, m.trace, 0, SingleLoop(m.count[1]));
    m.Run(IDLE_LOOP1, SingleLoop(m.count[1]), State(IDLE_END, m.count[1 := m.load[1]], true));
  }

  method RunNestedLoop(m: RwManager, ghost path: seq<nat>)
    requires m.Valid() && IdleLoops(m.code) && m.target[0] == m.target[1] == IDLE_LOOP2
    requires m.count[0] == m.load[0] && m.count[1] == m.load[1]
    requires path == NestedLoop(m.load[0], m.load[1])
    modifies m
    ensures m.Valid() && m.load == old(m.load) && m.target == old(m.target) && m.count == old(m.count)
    ensures m.trace == old(m.trace) + path && Idling(path)
  {
    RunsNested(m.Now(), State(IDLE_LOOP2, m.count, false));
    StayIdles(IDLE_LOOP2, m.load[0] + 1);
    RepeatIdles(Pass(m.load[0]), m.load[1] + 1);
    m.Run(IDLE_LOOP2, path, State(IDLE_END, m.count, true));
  }

  /** Runs the nested loop once and then `loops` times more. The loop leaves its counters
      reloaded, so that each run takes as long as the first. */
  method RunNestedLoops(m: RwManager, loops: nat, ghost path: seq<nat>)
    requires m.Valid() && IdleLoops(m.code) && m.target[0] == m.target[1] == IDLE_LOOP2
    requires m.count[0] == m.load[0] && m.count[1] == m.load[1]
    requires path == NestedLoop(m.load[0], m.load[1])
    modifies m
    ensures m.Valid()
    ensures Idled(old(m.trace), m.trace, Times(loops + 1, |path|))
  {
    var left: int := loops;
    while true
      invariant m.Valid() && 0 <= left <= loops
      invariant m.load == old(m.load) && m.target == old(m.target) && m.count == old(m.count)
      invariant Idled(old(m.trace), m.trace, Times(loops - left, |path|))
      decreases left
    {
      ghost var before := m.trace;
      RunNestedLoop(m, path);
      IdlesMore(old(m.trace), before, Times(loops - left, |path|), path);
      if left == 0 {
        break;
      }
      left := left - 1;
    }
  }

  /** Loads the counters and runs the loops. */
  method RunLoops(m: RwManager, nested: bool, inner: nat, outer: nat, loops: nat)
    requires m.Valid() && IdleLoops(m.code) && inner < 0x100 && outer < 0x100
    modifies m
    ensures m.Valid()
    ensures !nested ==> Idled(old(m.trace), m.trace, inner + 2)
    ensures nested ==> Idled(old(m.trace), m.trace, Times(loops + 1, |NestedLoop(inner, outer)|))
  {
    if !nested {
      m.LoadCounter(1, inner);
      m.LoadJump(1, IDLE_LOOP1);
      RunSingleLoop(m);
    } else {
      m.LoadCounter(0, inner);
      m.LoadCounter(1, outer);
      m.LoadJump(0, IDLE_LOOP2);
      m.LoadJump(1, IDLE_LOOP2);
      RunNestedLoops(m, loops, NestedLoop(inner, outer));
    }
  }

  /** Waits for at least `clocks` cycles, unless delays are to be skipped. */
  method DelayForMemClocks(m: RwManager, clocks: nat, skipDelays: bool)
    requires m.Valid() && IdleLoops(m.code) && clocks < 0x1_0000_0000
    modifies m
    ensures m.Valid()
    ensures !skipDelays ==> Idled(old(m.trace), m.trace, Cycles(clocks))
  {
    var inner, outer, loops := 0, 0, 0;
    if clocks == 0 {
    } else if clocks <= 0x100 {
      inner := Low8(clocks - 1);
    } else if clocks <= 0x10000 {
      inner, outer := 0xff, Low8((clocks - 1) / 0x100);
    } else {
      inner, outer, loops := 0xff, 0xff, Low16((clocks - 1) / 0x10000);
    }
    if skipDelays {
      inner, outer := 0, 0;
    }
    RunLoops(m, clocks > 0x100, inner, outer, loops);
    if !skipDelays && clocks > 0x100 {
      NestedCycles(clocks, outer, loops);
    }
  }
}
