/** The reset delays of the memory initialisation: three nested counters. */
module ResetLoop {
  import opened Arith
  import opened Microcode

  const INIT_RESET_0_CKE_0: nat := 0x6F
  const INIT_RESET_1_CKE_0: nat := 0x74

  /** A reset program at b: one instruction, a jump on each of three counters, the end. */
  ghost predicate Resets(code: seq<Instruction>, b: nat) {
    && b + 4 < |code|
    && code[b].flow == Next
    && code[b + 1].flow == JumpUnlessZero(0)
    && code[b + 2].flow == JumpUnlessZero(1)
    && code[b + 3].flow == JumpUnlessZero(2)
    && code[b + 4].flow == End
  }

  lemma ShippedResets()
    ensures Resets(DecodeAll(ROM), INIT_RESET_0_CKE_0) && Resets(DecodeAll(ROM), INIT_RESET_1_CKE_0)
  {
    assert ROM[0x6F] == 0x0 && ROM[0x70] == 0x8000 && ROM[0x71] == 0xa000 && ROM[0x72] == 0xc000;
    assert ROM[0x73] == 0x80000;
    assert ROM[0x74] == 0x80 && ROM[0x75] == 0x8080 && ROM[0x76] == 0xa080 && ROM[0x77] == 0xc080;
    assert ROM[0x78] == 0x80080;
  }

  /** All three jumps go back to the start, and the inner counters are as loaded. */
  ghost predicate Loaded(m: Machine, b: nat, s: State) {
    && m.Valid() && Resets(m.code, b) && m.target[0] == m.target[1] == m.target[2] == b
    && |s.count| == COUNTERS && !s.halted && s.pc == b
  }

  function Inner(b: nat, c0: nat): seq<nat> {
    Repeat([b, b + 1], c0 + 1)
  }

  function Middle(b: nat, c0: nat, c1: nat): seq<nat> {
    Repeat(Inner(b, c0) + [b + 2], c1 + 1)
  }

  function Outer(b: nat, c0: nat, c1: nat, c2: nat): seq<nat> {
    Repeat(Middle(b, c0, c1) + [b + 3], c2 + 1)
  }

  lemma {:induction false} RunsInner(m: Machine, b: nat, s: State)
    requires Loaded(m, b, s)
    ensures Goes(m, s, Inner(b, s.count[0]), s.(pc := b + 2, count := s.count[0 := m.load[0]]))
    decreases s.count[0]
  {
    OneStep(m, s);
    var t := Step(m, s);
    OneStep(m, t);
    var u := Step(m, t);
    Compose(m, s, [b], t, [b + 1], u);
    assert [b] + [b + 1] == [b, b + 1];
    if s.count[0] == 0 {
      assert Inner(b, 0) == [b, b + 1] + [] == [b, b + 1];
    } else {
      RunsInner(m, b, u);
      var v := s.(pc := b + 2, count := s.count[0 := m.load[0]]);
      assert u.count[0 := m.load[0]] == s.count[0 := m.load[0]];
      Compose(m, s, [b, b + 1], u, Inner(b, u.count[0]), v);
    }
  }

  lemma {:induction false} RunsMiddle(m: Machine, b: nat, s: State)
    requires Loaded(m, b, s) && s.count[0] == m.load[0]
    ensures Goes(m, s, Middle(b, m.load[0], s.count[1]), s.(pc := b + 3, count := s.count[1 := m.load[1]]))
    decreases s.count[1]
  {
    var inner := Inner(b, m.load[0]);
    RunsInner(m, b, s);
    var t := s.(pc := b + 2);
    assert s.count[0 := m.load[0]] == s.count;
    OneStep(m, t);
    var u := Step(m, t);
    Compose(m, s, inner, t, [b + 2], u);
    if s.count[1] == 0 {
      assert Middle(b, m.load[0], 0) == (inner + [b + 2]) + [] == inner + [b + 2];
    } else {
      RunsMiddle(m, b, u);
      var v := s.(pc := b + 3, count := s.count[1 := m.load[1]]);
      assert u.count[1 := m.load[1]] == s.count[1 := m.load[1]];
      Compose(m, s, inner + [b + 2], u, Middle(b, m.load[0], u.count[1]), v);
    }
  }

  lemma {:induction false} RunsOuter(m: Machine, b: nat, s: State)
    requires Loaded(m, b, s) && s.count[0] == m.load[0] && s.count[1] == m.load[1]
    ensures Goes(m, s, Outer(b, m.load[0], m.load[1], s.count[2]), s.(pc := b + 4, count := s.count[2 := m.load[2]]))
    decreases s.count[2]
  {
    var middle := Middle(b, m.load[0], m.load[1]);
    RunsMiddle(m, b, s);
    var t := s.(pc := b + 3);
    assert s.count[1 := m.load[1]] == s.count;
    OneStep(m, t);
    var u := Step(m, t);
    Compose(m, s, middle, t, [b + 3], u);
    if s.count[2] == 0 {
      assert Outer(b, m.load[0], m.load[1], 0) == (middle + [b + 3]) + [] == middle + [b + 3];
    } else {
      RunsOuter(m, b, u);
      var v := s.(pc := b + 4, count := s.count[2 := m.load[2]]);
      assert u.count[2 := m.load[2]] == s.count[2 := m.load[2]];
      Compose(m, s, middle + [b + 3], u, Outer(b, m.load[0], m.load[1], u.count[2]), v);
    }
  }

  /** The whole program runs the number of cycles that the initialisation counts on. */
  lemma {:induction false} RunsReset(m: Machine, b: nat, s: State) returns (path: seq<nat>, end: State)
    requires Loaded(m, b, s) && s.count[0] == m.load[0] && s.count[1] == m.load[1] && s.count[2] == m.load[2]
    ensures Goes(m, s, path, end) && end.halted
    ensures |path| == (m.load[2] + 1) * ((m.load[1] + 1) * (2 * (m.load[0] + 1) + 1) + 1) + 1
  {
    var c0, c1, c2 := m.load[0], m.load[1], m.load[2];
    RunsOuter(m, b, s);
    var t := s.(pc := b + 4);
    assert s.count[2 := c2] == s.count;
    OneStep(m, t);
    path, end := Outer(b, c0, c1, c2) + [b + 4], Step(m, t);
    Compose(m, s, Outer(b, c0, c1, c2), t, [b + 4], end);
    TimesIsProduct(c0 + 1, 2);
    TimesIsProduct(c1 + 1, |Inner(b, c0) + [b + 2]|);
    TimesIsProduct(c2 + 1, |Middle(b, c0, c1) + [b + 3]|);
  }
}
